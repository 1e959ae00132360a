# ARM assembly language servers and register-allocating code generator

This project models, in Dafny, the core of a small toolkit for ARM assembly:

- **The hover server** (`src/main.rs`). It loads a catalog of instruction
  records and indexes each record under its first name. On a hover request
  it finds the identifier under the cursor with `find_word_at_pos`, looks it
  up, and answers with the record's operation, summary and symbol lines.
- **The definition server** (`src/main_gd.rs`). It builds a symbol table that
  holds the first whitespace token of every line of the document. On a
  go-to-definition request it takes the word at the cursor and answers with
  the location of the first symbol of that name.
- **The message loop of both servers, modelled once** (`main_loop`,
  `src/main.rs:83-171` and `src/main_gd.rs:35-77`). It handles messages
  in arrival order and stops at `shutdown`. It answers each definition or
  hover request it handles with the request's id. Other requests, responses
  and notifications get no answer.
- **The code generator** (`codegen/main.py`). Its parser actions keep five
  pieces of module-level state:
  - the emitted assembly lines;
  - the name-to-register map;
  - a stack of pending comparison operators;
  - the internal register list;
  - the current register.

  The actions choose the lowest free of thirteen registers `r0`…`r12` and
  emit `MOV`, `ADD`, `SUB`, `MUL`, `SDIV`/`MLS`, `CMP` and conditional-move
  lines.

Modules:

| file | module | contents |
|---|---|---|
| `lsp_types.dfy` | `LspTypes` | `Option`, `Outcome` (a value or a panic), positions, ranges, locations |
| `text.dfy` | `Text` | Rust's `join`, a line splitter that undoes it, and `split_whitespace` |
| `tokenizer.dfy` | `Tokenizer` | `find_word_at_pos` and the word slice taken from it |
| `catalog.dfy` | `Catalog` | the instruction records, `populate_hashmap`, `get_instruction`, the hover text |
| `definition.dfy` | `Definition` | `Symbol`, `SymbolTable::new`, `get_word_at_cursor`, `text_document_definition` |
| `dispatch.dfy` | `Dispatch` | `main_loop` of both servers |
| `codegen.dfy` | `Codegen` | the `CodeGen` class with the generator's state and parser actions |

How the model represents the source:

- Rust panics (`unwrap` on `None`, an out-of-range slice) become the
  `Panicked` outcome, and the dispatch loop stops on it.
- Python exceptions become the `Err` case of a `Result`.
- Documents are sequences of lines held in a document store, which stands in
  for the file system.
- `p_expression_parenthesis` and `p_expression_number` only pass a value
  through. They are modelled by `Codegen.ExpressionParenthesis` and
  `Codegen.ExpressionNumber`, which have no contract to state.

Where the code differs from what one might expect, the model follows the code:

- catalog keys are the record's first name exactly as written (no upper-casing);
- the catalog holds one record per key, and a later record replaces an earlier one;
- a hover on an unknown word panics (the lookup is unwrapped) rather than answering with a fallback text;
- the definition lookup compares the cursor word with the symbol names exactly, so no `:` is added or removed;
- the definition lookup takes the first matching symbol and unwraps it;
- the definition server's position `character` selects the n-th whitespace token of the line, not a column.

## Model

| member | source | states |
|---|---|---|
| Text.Join | src/main.rs:131 | no contract of its own; `Text.SplitJoin` and `Text.WordsOfJoin` state what it means |
| Text.SplitJoin | src/main.rs:131 | joining a non-empty list of lines without newlines by `"\n"` and splitting the result on newlines gives back the lines |
| Text.Words | src/main_gd.rs:139-140 | `split_whitespace` yields only non-empty tokens free of whitespace, and yields none exactly when the line is all whitespace |
| Text.WordsSkipWhitespace | src/main_gd.rs:139 | leading whitespace does not change a line's tokens |
| Text.WordsOfJoin | src/main_gd.rs:125 | tokens joined by single spaces split back into the same tokens |
| Tokenizer.WithSentinel | src/main.rs:199 | the padded line is the line followed by one character that is not an identifier character |
| Tokenizer.ScanBack | src/main.rs:202-209 | the start is one past the last non-identifier before the column, or 0; everything between is identifier characters |
| Tokenizer.ScanForward | src/main.rs:212-219 | the end is the first non-identifier at or after the column, or the column itself when there is none |
| Tokenizer.FindWordAtPos | src/main.rs:198-220 | the span contains the column, is bounded by non-identifiers (or the line start), holds only identifier characters within the line, and past the line's end is (length+1, column) |
| Tokenizer.WordSpanIsUnique | src/main.rs:198-220 | any maximal identifier run around the column is the span `find_word_at_pos` returns |
| Tokenizer.WordAtColumn | src/main.rs:194-195 | within the line, the word is the slice of the maximal identifier run around the column |
| Catalog.PopulateHashmap | src/main.rs:44-47 | the keys are exactly the first names, and each key maps to the last record with that first name |
| Catalog.GetInstruction | src/main.rs:52-57 | a record is found exactly when the name is a key, and it is that key's record |
| Catalog.HoverText | src/main.rs:127-143 | no contract of its own; `Catalog.HoverTextLines` states what it shows |
| Catalog.HoverTextLines | src/main.rs:124-143 | the hover text splits into the operation lines, an empty line, the summary lines, an empty line and the symbol lines |
| Catalog.Hover | src/main.rs:120-143 | the text is the hover text of the catalog record of the word under the column |
| Catalog.HoverOutcome | src/main.rs:120-146 | the hover succeeds exactly when the document, line, column and catalog entry exist, and then shows that entry's text |
| Definition.SymbolsOf | src/main_gd.rs:138-161 | at most one entry per line scanned; the next three rows state which entries |
| Definition.SymbolsAreLineSymbols | src/main_gd.rs:138-160 | every table entry is the first token of its line, ranging from character 0 to the token's length |
| Definition.SymbolsInLineOrder | src/main_gd.rs:138 | table entries stand on strictly increasing lines |
| Definition.SymbolsCoverTokenLines | src/main_gd.rs:139-141 | every line with a token has an entry |
| Definition.SymbolsOfCharacterized | src/main_gd.rs:136-163 | the three facts above together |
| Definition.NewSymbolTable | src/main_gd.rs:136-163 | the loop builds the table of the whole document, one entry per line with a token, in line order |
| Definition.GetWordAtCursor | src/main_gd.rs:117-130 | the word at the cursor is a non-empty token without whitespace |
| Definition.FindSymbol | src/main_gd.rs:108-112 | nothing is found exactly when no symbol has the name; otherwise it is the first symbol with the name |
| Definition.FirstMatchIsFirstDefinition | src/main_gd.rs:105-112 | the first table entry with the name lies on the first line whose first token is the name |
| Definition.FirstDefinition | src/main_gd.rs:105-114 | a location is found exactly when some line starts with the word, and it is the first such line's token range |
| Definition.TextDocumentDefinition | src/main_gd.rs:98-115 | the answer is the range of the first line whose first token is the cursor word |
| Definition.DefinitionOutcome | src/main_gd.rs:98-128 | the request succeeds exactly when the document, line, token and definition exist, and then answers as above |
| Definition.DefinitionAtColumn | src/main_gd.rs:97 | corrected lookup: a location is found exactly when the position is in the document and the word under the column plus `:` starts some line, and it is the first such line |
| Definition.ExampleNoBareLabel | src/main_gd.rs:93-95 | no line of the example file starts with `L0` |
| Definition.ExampleLabelUnmatched | src/main_gd.rs:97-114 | the cursor word `L0` of `bnz L0` has no symbol, so the request panics |
| Definition.ExampleColumnIsNotTokenIndex | src/main_gd.rs:125-128 | with the cursor on `L0` at column 8 of `bnz L0`, the line has two tokens, so the request panics |
| Definition.ExampleLabelResolves | src/main_gd.rs:97 | the corrected lookup takes the cursor on `L0` to line 0, characters 0 to 3 |
| Definition.ExampleFirstLabel | src/main_gd.rs:93-95 | the label `L0:` of the example file is defined on line 0 |
| Dispatch.Handle | src/main.rs:92-168 | a shutdown request, and only it, stops; a reply or a panic comes only from a handled request, and a reply carries the request's id and no error; every other message is skipped |
| Dispatch.Serve | src/main.rs:90-169 | the loop sends at most one reply per message |
| Dispatch.MainLoop | src/main.rs:83-171 | the loop's replies and exit are those of the message-by-message specification `Serve` |
| Dispatch.ServeConcat | src/main.rs:90-169 | messages are handled in arrival order: a batch followed by another is handled as the first, then the second if the first ran to its end |
| Dispatch.ServeStopsAtShutdown | src/main.rs:93-96 | nothing after a shutdown request is handled |
| Dispatch.ServeAnswersEveryRequest | src/main.rs:98-160 | the loop runs to the end of the stream exactly when no shutdown arrives and no handler panics; it then answers each handled request once, in order, with its id; no reply carries an error |
| Dispatch.HoverServer | src/main.rs:83-171 | the hover server answers hover requests and runs the given definition handler |
| Dispatch.DefinitionServer | src/main_gd.rs:35-77 | the definition server has no hover handler |
| Dispatch.HoverServerAnswersHover | src/main.rs:116-156 | a hover request is answered with the record text of the word under the cursor, or the loop panics |
| Dispatch.DefinitionServerAnswersDefinition | src/main_gd.rs:49-63 | a definition request to the definition server is answered with the first definition of the word at the cursor, or the loop panics |
| Dispatch.DefinitionServerIgnoresHover | src/main_gd.rs:44-67 | the definition server leaves a hover request unanswered |
| Codegen.RegName | codegen/main.py:84 | a register name is `r` followed by at least one digit, and has exactly one digit for the registers below 10 |
| Codegen.NatToStringInjective | codegen/main.py:84 | different register numbers print differently |
| Codegen.RegNamesDistinct | codegen/main.py:82-84 | the registers `"r" + str(i)` are pairwise different names |
| Codegen.Line | codegen/main.py:18 | an emitted line is the instruction framed by one tab and one newline |
| Codegen.CondInstr | codegen/main.py:96-102 | a conditional move exists exactly for a comparison operator with stack length 0 or 1 |
| Codegen.ConditionalMovesSelectBranch | codegen/main.py:96-101 | the move for stack length 1 fires exactly when the comparison holds, the move for length 0 exactly when it fails |
| Codegen.MathInstructions | codegen/main.py:163-195 | `%` emits two instructions, `SDIV` then `MLS`; every other operator emits one, with its own mnemonic |
| Codegen.CodeGen.constructor | codegen/main.py:5-12 | the state starts empty, with no current register |
| Codegen.CodeGen.LowestFree | codegen/main.py:81-91 | the lowest index among the thirteen whose register is free, or none when all are taken |
| Codegen.CodeGen.RegisterFor | codegen/main.py:107-109 | a mapped name keeps its register; an unmapped one gets a free register held by no name |
| Codegen.CodeGen.AddInstruction | codegen/main.py:17-18 | appends exactly one tab-and-newline framed line and changes nothing else |
| Codegen.CodeGen.GetFreeReg | codegen/main.py:81-91 | returns the lowest free register, raises exactly when none is free, changes nothing |
| Codegen.CodeGen.EnsureRegister | codegen/main.py:107-109 | allocates a register only for an unmapped name |
| Codegen.CodeGen.HandleCondition | codegen/main.py:95-113 | answers false and changes nothing without a table entry; otherwise emits one conditional move into the name's register |
| Codegen.CodeGen.StatementAssign | codegen/main.py:116-137 | rejects an out-of-range integer before any change; pops the stack and tries the conditional move; else emits one `MOV` or only rebinds the name |
| Codegen.CodeGen.PopCondition | codegen/main.py:126-128 | pops the stack; without a conditional move for the popped operator and the length left it answers false and changes nothing else; otherwise it emits that move |
| Codegen.CodeGen.AssignValue | codegen/main.py:130-137 | an integer is moved into the name's register (kept, or the lowest free one); a register value only rebinds the name and emits nothing |
| Codegen.CodeGen.ExpressionMath | codegen/main.py:141-195 | arithmetic makes the lowest free register current and emits into it; a comparison emits `CMP` and stacks the operator twice; the internal list is unchanged |
| Codegen.CodeGen.EmitMath | codegen/main.py:163-195 | appends exactly the operator's instruction lines for the current register, stacks a comparison operator twice, and changes neither the name map nor the current register |
| Codegen.CodeGen.TakeFreeRegister | codegen/main.py:152-154 | the lowest free register becomes the current one and the internal list is left as it was; nothing changes when none is free |
| Codegen.ExpressionParenthesis | codegen/main.py:203-205 | no contract of its own: the rule passes the inner value through |
| Codegen.ExpressionNumber | codegen/main.py:208-210 | no contract of its own: the rule passes the literal's integer through |
| Codegen.CodeGen.ExpressionName | codegen/main.py:213-220 | a bound name yields its register, and an unbound name raises |

## Left out

- Transport and handshake are not modelled. This covers `Connection::stdio`, `initialize`, `io_threads.join` and the logging. Messages are an abstract datatype.
- The JSON extraction is not modelled. A request counts as a definition or hover request by its method name alone. The panic on a `JsonError` is not modelled.
- Catalog.PopulateHashmap: a record without names crashes the server at startup (`names[0]` panics). The model requires every record to have a first name rather than modelling that crash.
- Positions are unbounded naturals. The protocol's `u32` and the `as u32` casts of the line index and the token length in `SymbolTable::new` (`src/main_gd.rs:150` and `src/main_gd.rs:155`) are not modelled, so a line index or token length of 2^32 or more does not wrap.
- Request ids are integers. The protocol also allows string ids, but the loop only copies an id into its reply, so no stated property depends on the difference.
- The shutdown handshake reply is not modelled. `shutdown` only ends the loop.
- Reading the instruction file and the documents is not modelled. Records arrive parsed, and documents arrive as line sequences in a store keyed by URI. A document missing from the store stands for a file that cannot be opened, and its request panics. A missing or malformed instruction file makes `main` return an error before serving (`src/main.rs:41-42` and `src/main.rs:62`); this is not modelled. The `to_file_path().unwrap()` panics on a non-file URI (`src/main.rs:188`, `src/main_gd.rs:179`) are not modelled. The `Url` round trip in the symbol locations is the identity.
- The hover server's own `text_document_definition` (`src/main.rs:176-179`) has no body. It is a parameter of `Dispatch.HoverServer`.
- `serde_play` is not part of this model.
- Text is ASCII. Unicode `is_alphanumeric` and `is_whitespace` and the byte/character distinction of Rust slicing are not modelled.
- The code generator's lexer, grammar, precedence table, `p_error` and file input and output are not modelled. The control-flow rule has no action. Each action takes the values its rule has reduced.
- Codegen.CodeGen.ExpressionMath: operands are integers or register names. The `None` operand branches of lines 156-159 never run, because every rule gives its result a value. The `p[0]` branch at lines 160-161 runs on every reduction, because the parser sets the result to `None` before each action; it makes the result the current register, as the model does. The unreachable `ZeroDivisionError` handlers are not modelled.
- Codegen.CodeGen.StatementAssign: `isinstance(value, int)` is the `Int` case of the value. Booleans are not modelled.

## Findings

| source | as written | input that shows it | evidently intended | confidence | as-written member | corrected member |
|---|---|---|---|---|---|---|
| src/main_gd.rs:125-128 | the position's `character` selects the n-th whitespace token of the line | cursor on `L0` in `    bnz L0` (line 2, character 8) of the example file: the line has two tokens, so `nth(8)` is `None` and the request panics | the word under the cursor column, as the hover server finds it | high (not executed) | Definition.ExampleColumnIsNotTokenIndex | Definition.DefinitionAtColumn, with Definition.ExampleLabelResolves |
| src/main_gd.rs:108-114 | the cursor word is compared with the table's names exactly, and label names end in `:` | the word `L0` at line 2, character 1 of the example file: the table holds `L0:`, so `find` gives `None` and the `unwrap` panics | the label `L0` resolves to line 0, as the comment at src/main_gd.rs:97 says | high (not executed) | Definition.ExampleLabelUnmatched | Definition.DefinitionAtColumn, with Definition.ExampleLabelResolves |
