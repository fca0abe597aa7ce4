# c-mini front end in Dafny

A Dafny model of the front end of c-mini, a compiler for a small C-like
language. It covers four pieces of the code:

- **The longest-match scanner** (`src/scanner.rs`), in modules `Patterns` and `Lexer`.
  - A `Scanner` object holds a cursor `off`, a line counter `lineno` and the input.
  - Each `token` call tries the windows `istring[off..i]`, longest first.
    On each window it runs the 17-entry token table.
  - It keeps the longest match of the first window where anything matched.
    The sort is stable, so ties go to the earlier table entry.
  - An `ID` is re-classified through the six-entry keyword table.
  - It advances `off` by the length of the match, skips blanks, and counts newlines.
  - Each regular expression of the table is an explicit matcher function in `Patterns`.
  - The scanning loop is specified by the functions `Step` and `NextToken`.
    The methods of `Lexer.Scanner` are proved against them.
- **The AST nodes** (`src/ast.rs`), in module `Ast`. The value-type tag predicates, the node
  constructors, `set_vr`, `grow_ast`, and the three-address instruction text a node prints as.
- **The scoped symbol table** (`src/parser.rs`), in module `Parser`: a stack of frames with
  `init` and `insert`.
- **The command-line reader** `Args::new` (`src/main.rs`), in module `CommandLine`.
  - A `for` loop over the arguments fills a record of three fields: the input file, the `-uf` unroll factor and the `-c` flag.
  - It reports the two `Err` messages, the exit on a `-uf` value that is not an `i8`, and the out-of-bounds read when `-uf` comes last.
  - It is proved equal to a per-argument reference reading.

Panics and `process::exit` calls are modelled as error values:

- `Outcome.LexError` and `Outcome.Underflow` for the scanner;
- `Rendered.TooManyChildren` for `three_addr_code`;
- `Declared.AlreadyDeclared` for the symbol table;
- `Parsed.UfNotInteger` and `Parsed.IndexOutOfBounds` for the argument reader.

`wrappers.dfy` holds the `Option` type shared by the modules.

## Model

| member | source | states |
|---|---|---|
| Patterns.MatchNumberShape | src/scanner.rs:99 | A NUM match is empty, a decimal `[0-9]+(\.[0-9]+)?` that starts the window, or a fraction `\.[0-9]+` that ends it |
| Patterns.NumberMatchIsLeftmostFirst | src/scanner.rs:99 | On a window starting with a digit, NUM matches the longest decimal prefix and no longer prefix is a decimal. Otherwise it matches exactly when some suffix is a fraction, and the match is that suffix |
| Lexer.ApplyShape | src/scanner.rs:85-101 | Every pattern other than NUM matches the whole window or nothing; a NUM match is a prefix or a suffix; an IGNORE match is one blank character |
| Lexer.FindKeywordsSpec | src/scanner.rs:121-132 | `find_keywords` keeps the text. It gives the kind of the keyword spelled by the text when there is one, and leaves the token unchanged otherwise |
| Lexer.KeywordReclassification | src/scanner.rs:105-112 | `if`, `else`, `for`, `int`, `float` and `void` become IF, ELSE, FOR, INT, FLOAT and VOID; any other ID keeps kind ID |
| Lexer.ProcessedKeepsText | src/scanner.rs:64 | Post-processing a match keeps its text; only an IGNORE match gives an IGNORE token; every entry other than ID passes `(kind, text)` through unchanged |
| Lexer.CollectEmpty | src/scanner.rs:39-47 | A window yields no match exactly when every table entry fails on it |
| Lexer.CollectWellFormed | src/scanner.rs:39-47 | Every collected match is non-empty, is a prefix or suffix of the window, and carries its entry's name and post-processing |
| Lexer.WordWindowMatches | src/scanner.rs:85-101 | On a window that is longer than two characters or starts with a digit or letter, only NUM and ID can match, in that order |
| Lexer.SearchWindow | src/scanner.rs:34-54 | The window search finds the largest `i` up to `len - 1` whose window `s[off..i]` has a match, and no larger window has one; it finds none exactly when no window has a match |
| Lexer.SortByLengthPermutes | src/scanner.rs:61 | The sort by length is a permutation of the matches |
| Lexer.SortByLengthOrdered | src/scanner.rs:61 | The sort orders the matches by decreasing length |
| Lexer.SortedHeadIsFirstLongest | src/scanner.rs:61-63 | The head of the sorted matches is the first match of greatest length: longest wins, and ties go to the earlier table entry |
| Lexer.Step | src/scanner.rs:31-67 | One pass of the loop. The chosen window lies before the final byte. The cursor advances by the token's length, which is at least 1. An IGNORE token is a single blank character |
| Lexer.StepIsLongestMatch | src/scanner.rs:34-67 | A step uses the longest window with a match. Its token comes from the first longest match of that window, only an ID is re-classified, and the cursor moves by the match's length |
| Lexer.StepFailsExactly | src/scanner.rs:56-60 | A step aborts exactly when no window before the final byte has a match, that is, when every pattern fails on every such window |
| Lexer.NextToken | src/scanner.rs:25-80 | A `token` call never returns an IGNORE token and moves the cursor forward. Empty input is the underflow of `len() - 1`. At or past `len - 1` the result is `None`. The line count never decreases |
| Lexer.NextTokenSkipsBlanks | src/scanner.rs:72-78 | A `token` call skips a run of blanks and adds exactly the newlines in that run to `lineno`, then ends with one step, or with `None` at `len - 1` |
| Lexer.FinalByteIgnored | src/scanner.rs:27-36 | Changing the final byte of the input never changes any `token` result: the last byte never enters a window |
| Lexer.NumberSuffixQuirk | src/scanner.rs:67 | The fraction alternative matches a suffix of the window, yet `off` advances by its length only. On "x.5 " the scanner returns NUM ".5", then NUM "5" again, and never the `x` |
| Lexer.Scanner.constructor | src/scanner.rs:16-23 | A new scanner starts at `off = 0` and `lineno = 1` on the unchanged input |
| Lexer.Scanner.MatchAll | src/scanner.rs:39-47 | The `for t in TOKENS` loop collects every entry's non-empty match on the window, in table order |
| Lexer.Scanner.MatchWindow | src/scanner.rs:39-47 | The loop over the token table yields the window's matches |
| Lexer.Scanner.FindWindow | src/scanner.rs:34-54 | The inner `while` stops at the longest window with a match and returns its matches, or returns none when no window has any |
| Lexer.Scanner.ScanOnce | src/scanner.rs:31-64 | The window search, the sort and the post-processing compute exactly one `Step` |
| Lexer.Scanner.Advance | src/scanner.rs:31-78 | One loop iteration either ends the call with `Some` of the `NextToken` outcome, or returns `None` after it consumes exactly one IGNORE lexeme of `Step`. In that case `off` moves to just past it, `lineno` grows by one exactly when the lexeme is "\n", and `NextToken` from the new cursor equals the old one |
| Lexer.Scanner.Token | src/scanner.rs:25-80 | `token` returns the outcome and leaves the cursor and line count exactly as `NextToken` from the old cursor says |
| Ast.ExactlyOneTag | src/ast.rs:18-25 | Every value type is an int or a float, never both |
| Ast.OpcodeRoundTrip | src/ast.rs:46-63 | Every opcode reads back as the node kind and type tag it was printed from, with the two load kinds read as one |
| Ast.OpcodeIdentifies | src/ast.rs:103-110 | Two equal opcodes have the same type tag and the same node kind, except for `Num` and `IOID`, which print alike |
| Ast.MnemonicAsWritten | src/ast.rs:48-63 | With its bare-name arms, the `NodeType` formatter prints `2vr` for every kind |
| Ast.TypeLetterAsWritten | src/ast.rs:11-14 | With its bare-name arms, the `Type` formatter prints `i` for every type |
| Ast.CatchAllArmsCollapse | src/ast.rs:11-14 | As written, an int `Add` and a float `Sub` print the same opcode `2vri`, where the per-arm tables give `addi` and `subf` |
| Ast.ArgListShape | src/ast.rs:92-96 | For any printed children, there is an argument text exactly for 0, 1 or 2 children. It is "" for none, the child in parentheses for one, and `(` + first child + `,` + second child + `)` for two, the children in order |
| Ast.ArgListRoundTrip | src/ast.rs:92-95 | The argument text of 0, 1 or 2 children reads back as the printed children, in order, when no printed child contains a comma |
| Ast.Node.constructor | src/ast.rs:76-83 | `Node::new` gives the kind and type, no children and no register |
| Ast.Node.GrowAst | src/ast.rs:114-121 | `grow_ast` gives the kind and type, the subtree as the only child, and no register |
| Ast.Node.SetVr | src/ast.rs:85-87 | `set_vr` sets the register to `Some(v)` and changes nothing else |
| Ast.Node.ThreeAddrCode | src/ast.rs:89-97 | `three_addr_code` panics exactly when the node has more than two children, whatever its kind |
| Ast.VarIdPrintsNothing | src/ast.rs:102 | A `VarID` node with at most two children prints the empty string |
| Ast.InstructionShape | src/ast.rs:103-110 | Any other node prints its register, ` = `, then its opcode, then the argument text. The loads `Num` and `IOID` use `int`/`float` plus the mnemonic and have no `;`; every other kind uses the mnemonic plus the type letter and ends with `;` |
| Parser.Declare | src/parser.rs:23-30 | A declaration fails exactly when the id is a key of the innermost frame, reporting the id and line, and keeps the number of frames otherwise |
| Parser.DeclareBinds | src/parser.rs:28-29 | A successful declaration binds the id to its info in the innermost frame and keeps that frame's other bindings. The outer frames and the number of frames are unchanged |
| Parser.ShadowingAllowed | src/parser.rs:25 | A name bound only in an outer frame may be declared again, and the outer binding is left alone |
| Parser.RedeclarationFails | src/parser.rs:25-27 | Declaring a name twice in one frame fails the second time, at the second line |
| Parser.SymbolTable.Init | src/parser.rs:17-21 | `init` builds a stack of exactly one empty frame |
| Parser.SymbolTable.Insert | src/parser.rs:23-30 | `insert` succeeds exactly when `Declare` does, and then leaves the stack `Declare` computes; on a redeclaration the table is unchanged |
| CommandLine.Contains | src/main.rs:30 | `str::contains`: the result is true exactly when the pattern occurs at some position |
| CommandLine.ParseShowRoundTrip | src/main.rs:31 | Every `i8` value is read back by `parse::<i8>` from its decimal text |
| CommandLine.ParseI8Examples | src/main.rs:31 | A sign alone, the empty string, 128, -129 and a stray character are rejected; -128 and "+007" are accepted |
| CommandLine.NewArgs | src/main.rs:19-45 | The `for` loop of `Args::new` computes `ParseArgs`, including every error and abort |
| CommandLine.ParseArgsIsReference | src/main.rs:19-45 | `Args::new` equals the reference reading. The first `-uf` with no `i8` after it aborts. Otherwise the input is the last plain argument, `uf` is the value after the last `-uf`, and `lvn` is set by any `-c` |
| CommandLine.NotEnoughArgumentsExactly | src/main.rs:20-22 | "not enough arguments" is returned exactly when there are fewer than two arguments |
| CommandLine.ProgramNameIgnored | src/main.rs:24-29 | `args[0]` is never inspected |
| CommandLine.OkInputIsLastPlain | src/main.rs:37-44 | A successful parse names a non-empty input: the last argument that is neither a `-uf` nor a `-c` argument |
| CommandLine.LvnIffFlag | src/main.rs:35-36 | `lvn` is set exactly when some argument contains `-c` and not `-uf` |
| CommandLine.UfIsLastValue | src/main.rs:26-34 | `uf` is 1 when no `-uf` is given, and otherwise the `i8` that follows the last `-uf` |
| CommandLine.UfFailureAborts | src/main.rs:30-34 | The parse aborts at the first `-uf` whose value is not an `i8`, or that is the last argument, and finishes normally exactly when no `-uf` fails |
| CommandLine.UfValueIsReadAgain | src/main.rs:29-38 | The value after `-uf` is not skipped: `cmini prog.c -uf 4` takes "4" as the input file, and `cmini prog.c -uf` reads past the end |

## Left out

- `main` (src/main.rs:48-70) is left out: reading the file, printing, and the loop that drains the scanner are I/O.
- The regular-expression engine is not modelled. Each pattern of the table is written as an explicit matcher over characters.
- The `lazy_static` table, `Box` and the function pointers of the token table become a plain sequence and a two-valued `PostProcess` tag.
- The `f32` payload of `Type` and the derived `PartialEq` that compares it are floating point and are not modelled. The `i32` payload is an unbounded `int`.
- Derived `Debug` is taken as parameters of `ThreeAddrCode`: `showNode` for a child `Node`, `showVr` for `Option<String>` and `showStr` for the `String` of the arguments. Rust's formatter is not modelled.
- `lineno` is an unbounded `int`: the wrap-around of `i32` after 2^31 - 1 newlines is not modelled.
- `uf` is an `int` held to the `i8` range by `ParseI8`, not a machine `i8`.
- Lexer.Scanner.Token: requires ASCII input, so that byte offsets and character offsets agree. A slice through a multi-byte UTF-8 character, which panics in the source, is not modelled.
- Parser.SymbolTable.Insert: the source takes `self` by value, so the update is lost to the caller. The model updates the table in place and keeps it unchanged on a redeclaration, where the source panics. The pure `Parser.Declare` states the panic as `AlreadyDeclared`.
- The empty `Parser` struct (src/parser.rs:33-35) has no behaviour and is not modelled.
- `src/ast.rs` is not declared as a module in src/main.rs:9-10, so it is not compiled with the program. It is modelled from its text all the same; see "## Findings" for its `Debug` arms.
- Ast.Node.ThreeAddrCode: the instruction text uses the per-arm mnemonic and type-letter tables `Mnemonic` and `TypeLetter` (the corrected reading), not the catch-all `Debug` arms as written. As written, every opcode would be `int2vr`/`float2vr` or `2vri`; only `OpcodeAsWritten` and Ast.CatchAllArmsCollapse model those arms (see "## Findings").
- Ast.ArgListRoundTrip: reading the text back holds only for printed children without a comma. The derived `Debug` of a `Node` contains commas, so for the program's own output the split is ambiguous. Ast.ArgListShape states the layout without that condition.
- Ast.VarIdPrintsNothing: holds only for at most two children. The source checks the arity before the kind, so a `VarID` with three or more children panics like any other node.
- Empty scanner input is the `Underflow` outcome of `NextToken` rather than a precondition, since `len() - 1` underflows there.
- The parser, type inference, register allocation and linearisation have no code in these files.

## Findings

| source | as written | input that shows it | evidently intended | confidence | as-written member | corrected member |
|---|---|---|---|---|---|---|
| src/ast.rs:11-14, 48-63 | The arms of both `Debug` tables are bare names (`Int`, `Float`, `Num`, `Add`, …) with no `use` of the enum variants in scope, so they are bindings that match anything. Under a toolchain or an `#[allow]` that accepts such bindings, the first arm always wins. Current rustc rejects bindings named like a variant by default, and src/ast.rs is not declared as a module in src/main.rs:9-10 | An `Add` node of type `Int` prints the opcode `2vri`, and so does a `Sub` node of type `Float` | One mnemonic and one type letter per variant (`addi`, `subf`), so that the opcode identifies the operation and the type | not executed | Ast.CatchAllArmsCollapse | Ast.OpcodeIdentifies |
