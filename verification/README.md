# HR-OS: verified model

A Dafny model of the parts of HR-OS whose correctness is not visible from any
one function: the Holy Rust compiler with its two back ends, the response-time
analysis, the single-producer/single-consumer rings, the capability engine and
the program store.  `dafny verify dfyconfig.toml` checks everything.

Words are 32 bits wide, as on both real targets: a `Word` is an integer below
2^32 and every wrap-around is written out as a remainder.

## The pieces

**Compiler pipeline.** `Lexer` reads bytes, `Expressions` and `Statements` are
the one-pass parser as functions of the tokens still to come, `Lines` is one
line typed at the prompt, `Compiler` is the object with its tables, stream
buffer and cursor changed in place, each method proved against the function it
implements.  Beside the parser stand a grammar (`Expr`, `Stmt`), a reference
meaning (`Evaluate`, `Elaborate`) and structured code that is executed directly
(`Code`, `ExecAll`).  The parser is proved to compute the meaning of every tree,
with the right error in the right order, and to accept nothing but trees.
`Sessions` proves the invariant over every sequence of lines and imports, and
dispatch safety.  `Prompt` and `PromptLoops` say what calls, expressions,
bindings and loops typed at the prompt mean, and exactly when the prompt does
something else; `SourceText` spells out whole lines, and `Layout` covers every
other way to write them down.  `Console` says what each command means, and runs
lines of any kind against the registry and the bus; `Malformed` says which error
a line that goes wrong reports.  `EndToEnd` carries a
definition from its source text, through any further lines and imports, to a
call on either back end.

**Back ends.** `ThreadedVm` and `Streams` are the stack VM and its dispatch
loop; `Thumb2`, `Emitter` and `Native` are the encoders, the emitter and the
code-generation loop, together with a decoder and step machine written from
section A7.7 of the ARMv7-M Architecture Reference Manual.  `Agreement` compares
the two on the bus: the sequence of volatile reads and writes, where the answer
to a read may depend on everything before it.

**Response-time analysis.** `ResponseTime` is the capped iteration, `Schedule` a
unit-tick preemptive schedule in which higher tasks are released in any sporadic
pattern and the job arrives at any moment; then every job of a sporadic task.

**Rings, capabilities, store.** `Ring` splits push and pop into atomic steps and
covers all interleavings; `Capability` is the windowed mask check, the registry
and its tokens; `ProgramStore` works on bytes with overlapping 32-bit stores, and
`Persistence` is the `store` and `load` commands with their search for a slot.

## Where the code and its documentation disagree

The model follows the code, and each disagreement has its exact condition.

- `acc_loaded` is set and never cleared (src/compiler/native.rs:68), so a poke
  after a poke to another address, or after a peek, goes to the wrong address.
  `Agreement.AgreeOnEveryBus` says exactly which streams are unaffected.
- `encode_sdiv` is not the SDIV encoding; a chain agrees with the VM exactly when
  it does not divide (`Agreement.ChainsAgree`).
- `emit_mul` computes `a * a` when the destination is the right operand only
  (`Thumb2.MulPromise`).
- `encode_lui` puts its field at bit 20 instead of bit 12, so `emit_mov_imm` on
  RV32 is right exactly for signed 12-bit values (`Rv32.MovImmLoads`).
- The response-time analysis gives up after 100 iterations although a solution
  may exist (`ResponseTime.CapMissesSolution`); a set that settles at step k is
  answered exactly when k <= 99 (`ResponseTime.SettledExact`), and
  `ResponseTime.StairsExact` is a family with one set for every k from 2 on.
- A 64-word record is three bytes longer than its slot, although the store
  accepts it.  Exactly when the next record survives, when a free slot stays
  free, and when the longer record survives a save after it:
  `ProgramStore.SpillIntoNext`, `SpillIntoFree` and `SpillFromNext`.
- A loop typed at the prompt is not parsed as statements.  For every body,
  `PromptLoops.PromptLoopAnswer` gives its outcome and `LoopMeans` says exactly
  when that is what the source means, whether the source has a program or is an
  error.  A body without a peek or poke in an expression is answered as what is
  kept of it (`KeptLoopAnswer`): pokes and peeks up to the first inner loop, and
  then what is kept of that loop; `PromptLoopMeans` says when nothing is lost by
  that, and when an error is still reported.  `PlainLoopMeans`,
  `NestedPromptLoop` and `StraightLoopMeans` say it for bodies with calls, with
  an inner loop, and with expressions.  Two lines that go wrong:
  `NestedLineLoses`, and `UnknownCallAccepted`, an error that is accepted.
- A function may be given the name of a command; it is then stored and spliced,
  but a call at the prompt runs the command.  A call returns the function's
  program exactly when its name is no command's (`Prompt.CallExact`).  An
  expression is answered with its value or its error exactly when it does not
  start with the name of a command, or starts with a peek whose address fails
  (`Prompt.PromptExpression`): `peek A + 1;` is an error.
- `import_fn` takes any words, so the promise that every stored access passed the
  gate holds after a session exactly when the words it imported could have come
  from a definition (`Sessions.SessionExact`); `Sessions.UnvettedImport` is an
  import that breaks it.
- `load NAME;` takes the first record whose name begins with NAME
  (`Persistence.MatchIsPrefix`), so it finds the function stored under NAME
  exactly when no earlier slot matches (`Persistence.LoadFinds`).

## Model

| member | source | states |
|---|---|---|
| `EndToEnd.DefineThenCall` | src/compiler/parser.rs:318-440 | Type in a function after any session with vetted imports, then any further lines and imports, then a call: the call returns the function's program if and only if its name is no command's, and that program runs in the VM exactly as the defining source executes directly, with the constants the definition saw - same accesses, same operand stack, cleanly |
| `EndToEnd.DefinitionExact` | src/compiler/parser.rs:318-358 | For every function source text the stored body is the source unrolled and inlined; otherwise the line reports exactly the first error: a long name, an error of the source, the 32-word limit or the function table; and changes nothing |
| `EndToEnd.EveryRunAgrees` | src/compiler/parser.rs:100-121 | After any session with vetted imports, any program a line returns compiles natively; running it gives what the dispatch loop gives - always for a value, and for blocks if and only if every poke finds its own address in the accumulator |
| `EndToEnd.NativeCallMeans` | src/compiler/native.rs:46-152 | Generated code for a function body makes the accesses of its source on every bus if and only if the unrolled body pokes one address and only before any peek |
| `EndToEnd.NativeValueMeans` | src/compiler/parser.rs:758-763 | A value program returns its value on both back ends and touches no memory |
| `EndToEnd.StoreRoundTrip` | src/compiler/parser.rs:242-267 | A function exported and held in memory as a record is loaded and imported, into a table with a free slot, so that a call answers as it did before, whatever the name |
| `Persistence.StoreThenLoad` | src/drivers/repl.rs:345-407 | The whole trip on objects: store in the first free slot, load into another compiler, call on each; the calls are answered alike if and only if the record the load comes across first has the stored body, or the name is a command's; so they are whenever no earlier slot matches |
| `Persistence.StoreCommand` | src/drivers/repl.rs:345-374 | A live function is saved in the first slot in which a load finds no record; an unknown function or a full store changes nothing |
| `Persistence.LoadCommand` | src/drivers/repl.rs:377-407 | Imports the words of the first slot whose record matches the name, with the refusals of import; no store or no match changes nothing |
| `Persistence.MatchIsPrefix` | src/drivers/repl.rs:382-388 | The search takes a saved record for NAME exactly when NAME is a prefix of the name it was saved under |
| `Persistence.LoadFinds` | src/drivers/repl.rs:382-388 | With NAME saved in a slot, the search ends there exactly when no earlier slot matches, and never later |
| `Persistence.ImportedAnswers` | src/compiler/parser.rs:254-267 | After importing words under a name, a call is answered as for a given body if and only if the words are that body or the name is a command's |
| `Persistence.FreeMeans` | src/drivers/repl.rs:345-360 | A slot counts as free exactly when there is a window and the length stored there is 0 or above 16 |
| `EndToEnd.ImportThenCall` | src/compiler/parser.rs:254-267 | An imported body is what a call by that name finds, whatever the name |
| `Prompt.CallExact` | src/compiler/parser.rs:608-617 | Calling a live function at the prompt returns its body and a halt if and only if its name is no command's; otherwise the command answers, or refuses the parenthesis; the tables stay |
| `EndToEnd.LinesKeepFns` | src/compiler/parser.rs:844-853 | No sequence of lines and imports moves or changes a live function |
| `Prompt.PromptExpression` | src/compiler/parser.rs:289-294 | An expression text is answered with a program for its left-to-right value, or with its first error, if and only if it does not start with a command's name or starts with a peek whose address fails; otherwise the command answers, never with a program; the tables stay |
| `Prompt.ExpressionEnds` | src/compiler/parser.rs:618-623 | Such an expression and whatever follows it: the value if the statement ends there, at a semicolon or the end of the line, and a missing semicolon otherwise |
| `Prompt.LetExact` | src/compiler/parser.rs:302-316 | A binding typed at the prompt updates the finite map with the value of its expression, exactly while the name is bound or fewer than 32 names are; a long name, an error of the expression, a missing semicolon or a full table is reported, in that order, and changes nothing |
| `EndToEnd.DefinedCall` | src/compiler/parser.rs:775-786 | A live function is what a call finds, any number of lines and imports later |
| `Console.DirectExact` | src/compiler/parser.rs:442-607 | `peek`, `poke`, `reg_set_bit`, `reg_clr_bit`, `pwm`, `pwm_duty`, `spi_tx` and `pool_alloc` typed at the prompt: the answer is the verb and the values of the arguments in the order written, if and only if they evaluate, the statement ends at a semicolon or the end of the line, and the address, the timer or the SPI port is allowed; otherwise the first error in that order; the tables stay |
| `Console.NamedExact` | src/compiler/parser.rs:461-470 | `cap_claim`, `cap_drop`, `store`, `load` and `spawn` are answered with their name, or with the first error: no name, a name over 16 bytes, no end of statement |
| `Console.PlainExact` | src/compiler/parser.rs:489-504 | The eight commands without arguments are answered whatever follows them |
| `Console.OddLine` | src/compiler/parser.rs:278-298 | An empty line, a lexical error, and a line that starts with an operator, a brace, a comma, a semicolon or a closing parenthesis are the errors they should be |
| `Malformed.BadOperand` | src/compiler/parser.rs:631-643 | What starts no operand is an unexpected token, or the lexical error it is |
| `Malformed.OpenGroup` | src/compiler/parser.rs:654-659 | A parenthesis that is not closed reports the first error of the expression, or else an unexpected token |
| `Malformed.MalformedLet` | src/compiler/parser.rs:302-312 | `let` without a name, with a long name, or without its `=`: which error |
| `Malformed.MalformedFn` | src/compiler/parser.rs:318-338 | `fn` without a name, with a long name, or without `( ) {`: which error |
| `Malformed.OpenDefinition` | src/compiler/parser.rs:339-348 | A definition whose body breaks off, or goes on with what starts no statement, reports the first error of the body, or else that place |
| `Malformed.MalformedCall` | src/compiler/parser.rs:608-617 | A call that goes on wrongly, does not end, or names no function: which error, in this order |
| `Malformed.MalformedLoop` | src/compiler/parser.rs:532-540 | A loop without its brace; an error of the count and a count of 0 or above 64 come first |
| `Malformed.OpenLoop` | src/compiler/parser.rs:542-546 | A loop at the prompt that is not closed |
| `Console.AccessFollowsClaims` | src/drivers/repl.rs:173-227 | From a registry with nothing claimed, after any lines whatever: a peek, poke or bit update typed at the prompt has its effect on the bus - which address, which value, which bit, in which order - if and only if its arguments evaluate, the statement ends and the lines before hold a claim to that address; otherwise nothing changes |
| `Console.RegistryFollowsLines` | src/drivers/repl.rs:432-470 | After any lines whatever a resource is held if and only if the last line about it claimed it |
| `Console.EveryAccessPermitted` | src/kernel/memory.rs:86-120 | Every direct access made in any sequence of lines passed the gate under the registry its line found |
| `Console.ResolveExact` | src/capabilities/tokens.rs:235-248 | The names of the eight resources, and their ids |
| `Console.WithBitMeans` | src/kernel/memory.rs:64-73 | Setting or clearing bit b changes bit b and no other |
| `Console.SecondCheckAgrees` | src/kernel/memory.rs:86-104 | What passed the gate when the line was compiled is not refused when it is executed |
| `PromptLoops.PromptLoopMeans` | src/compiler/parser.rs:532-582 | A loop typed at the prompt, its body free of peeks and pokes in expressions, is answered as its source means: a source with a program, if and only if all that the prompt drops is empty (calls, further rounds of an inner loop, what follows that loop); a source that is an error, if and only if what is kept of it is that error |
| `PromptLoops.KeptLoopAnswer` | src/compiler/parser.rs:542-569 | Such a loop is answered exactly as the loop over what is kept of its body, errors included |
| `PromptLoops.PromptLoopAnswer` | src/compiler/parser.rs:532-582 | For every loop of statements typed at the prompt: exactly what it returns, error or program, in terms of the statements |
| `PromptLoops.LoopMeans` | src/compiler/parser.rs:532-582 | For any body whatever, a source with a program is answered as meant if and only if the scanned blocks are the blocks of its code, and a source that is an error if and only if the scan reports that error |
| `PromptLoops.PlainLoopMeans` | src/compiler/parser.rs:547-568 | With calls among pokes and peeks: a source with a program is answered as meant if and only if every function it calls is empty; an error, if and only if the pokes and peeks alone are that error |
| `PromptLoops.StraightLoopMeans` | src/compiler/parser.rs:547-568 | With expressions among pokes and peeks: a source with a program is answered as meant if and only if no expression holds a peek or poke (such a peek is compiled as an access or is an error); an error, if and only if the scan reports it |
| `PromptLoops.NestedPromptLoop` | src/compiler/parser.rs:542-569 | With an inner loop after flat statements: a source with a program is answered as meant if and only if the inner loop runs once or is empty and nothing after it has words; an error, an inner count of 0 included, if and only if the flat statements alone are that error |
| `PromptLoops.NestedLineLoses` | src/compiler/parser.rs:542-569 | A concrete line, two rounds of a loop of three pokes, is accepted and pokes twice instead of six times |
| `PromptLoops.UnknownCallAccepted` | src/compiler/parser.rs:547-568 | A loop that calls a function that does not exist is an error, and is accepted as an empty program |
| `PromptLoops.BlockScans` | src/compiler/parser.rs:542-569 | The prompt's token loop on any block of statements compiles what the tree-level scan says |
| `Sessions.EverySession` | src/compiler/parser.rs:302-440 | After every session of lines and vetted imports: the symbol table is a finite map, live function names are distinct, each live body is at most 32 words and the unrolled form of structured code; the accesses a definition makes itself all passed the gate under the registry that definition saw, and its calls are of live functions with the code those have |
| `Sessions.EveryLineSequence` | src/compiler/parser.rs:278-298 | In particular after every sequence of lines |
| `Sessions.DefinedByLine` | src/compiler/parser.rs:353-357 | The registry a function is held to is that of a line of the session that was accepted as a definition |
| `Sessions.SessionExact` | src/compiler/parser.rs:254-267 | That invariant holds after a session if and only if every import its table took is a list of blocks that passed under the registries it is held to |
| `Sessions.UnvettedImport` | src/compiler/parser.rs:254-267 | Importing the word 7 is accepted and leaves a table that no origins justify |
| `Sessions.OriginAnswers` | src/compiler/parser.rs:368-381 | Every access of a function in a sound table passed under the registry of its own definition or of a function it calls, directly or not |
| `Sessions.PassedMeans` | src/capabilities/registry.rs:90-121 | Passing under a set of registries means: in one of them the bit of the peripheral that owns the address is set, or the super-user bit, or the address is flash or SRAM |
| `Sessions.ImportKeepsInv` | src/compiler/parser.rs:254-267 | A vetted or refused import keeps the invariant |
| `Sessions.LineKeepsInv` | src/compiler/parser.rs:278-298 | One line keeps that invariant, whatever its tokens |
| `Sessions.Answer` | src/compiler/parser.rs:278-298 | A line that fails leaves symbol and function tables unchanged |
| `Sessions.DefinitionMeans` | src/compiler/parser.rs:318-358 | Every accepted definition is the spelling of statements that elaborate to its body, and its own accesses all passed the gate now |
| `Sessions.EveryProgramRuns` | src/kernel/exec.rs:52-124 | Dispatch safety: any program any line returns after any session with vetted imports fits 128 words, runs to its own halt inside them, never pops an empty stack, never drops a push, and leaves exactly one value when it yields one; a loop touches only addresses that passed under the registry of its line, a call only those that passed under the registry of the function's definition or of one it calls |
| `Sessions.ProgramShape` | src/compiler/parser.rs:442-626 | A line returns only value programs and halt-terminated block programs, whose addresses passed under the registry of the line or of the function called |
| `Statements.StmtCompiles` | src/compiler/parser.rs:361-440 | Compiling the spelling of any statement appends exactly the words of its unrolled, inlined code, or fails with exactly its first error |
| `Statements.BlockCompiles` | src/compiler/parser.rs:339-348 | The same for any sequence of statements and its closing brace |
| `Statements.BlockStops` | src/compiler/parser.rs:339-348 | Statements that are followed neither by another nor by the closing brace report their first error, or else an unexpected token |
| `Statements.BlockMeans` | src/compiler/parser.rs:400-406 | Conversely, any accepted token sequence is the spelling of statements whose code is what was appended |
| `Statements.StmtTree` | src/compiler/parser.rs:361-440 | An accepted statement that does not end the line is the spelling of a statement |
| `Statements.ExecIsBlocks` | src/compiler/parser.rs:388-419 | Unrolling loops and inlining calls preserves the meaning of code |
| `Statements.CodeRuns` | src/kernel/exec.rs:107-124 | The VM runs a body of code as the code executes directly, and cleanly |
| `Statements.UnrollIs` | src/compiler/parser.rs:409-417 | The checked copy loop appends all the copies if they fit and fails otherwise |
| `Statements.GateHoldsAll` | src/compiler/parser.rs:368-381 | Every access a body compiles itself passed the gate at this definition; the rest is the code of live functions it calls |
| `Expressions.EvalRoundTrip` | src/compiler/parser.rs:649-699 | Evaluating the spelling of any expression tree gives its left-to-right wrapping value and stops right after it, or fails with its first error: division by zero exactly when that evaluation divides by zero |
| `Expressions.SumsWrap` | src/compiler/parser.rs:680-682 | `+` wraps once at 2^32 and `-` borrows once |
| `Expressions.ProductsWrap` | src/compiler/parser.rs:683 | `*` is right up to a whole multiple of 2^32 |
| `Expressions.DivisionHolds` | src/compiler/parser.rs:684-695 | `/` and `%` satisfy the division law |
| `Expressions.ApplyFails` | src/compiler/parser.rs:684-694 | Folding fails exactly on a zero divisor, with that error |
| `EndToEnd.FoldedChain` | src/compiler/parser.rs:649-699 | Folding an arithmetic chain at compile time gives what the VM computes for it, and is refused exactly when the chain divides by zero |
| `Expressions.ExprTree` | src/compiler/parser.rs:649-722 | Conversely, whatever is accepted is the longest spelling of a tree, and the value returned is that tree's |
| `Expressions.OperandReads` | src/compiler/parser.rs:631-643 | An atomic term consumes exactly itself, whatever follows |
| `Expressions.TextRoundTrip` | src/compiler/parser.rs:649-722 | Rendering a tree as text, lexing and evaluating it gives its value or its first error |
| `Expressions.EvalExpr` | src/compiler/parser.rs:649-653 | An expression consumes at least one token, so the mutual recursion terminates on every input |
| `Compiler.Compiler.Parse` | src/compiler/parser.rs:278-298 | On every byte string the in-place parser terminates with the outcome and the tables of the reference line semantics |
| `Compiler.Compiler.ParseBodyStmt` | src/compiler/parser.rs:361-440 | The in-place statement parser leaves in the stream buffer and the cursor what the reference says, with the same error |
| `Compiler.Compiler.BlockOf` | src/compiler/parser.rs:339-348 | Statement loop up to the closing brace, against its reference |
| `Compiler.Compiler.UnrollFrom` | src/compiler/parser.rs:406-417 | The unrolling loop over the stream buffer appends the copies of the body, or reports the stream full |
| `Compiler.Compiler.CallStmtOf` | src/compiler/parser.rs:788-796 | Splicing appends the callee's stored body |
| `Compiler.Compiler.EvalFromHead` | src/compiler/parser.rs:649-699 | The folding loop computes the reference evaluation and leaves the cursor after it |
| `Compiler.Compiler.FoldOperator` | src/compiler/parser.rs:664-696 | One turn of the loop keeps the value still to be computed |
| `Compiler.Compiler.OperandFrom` | src/compiler/parser.rs:654-662 | A parenthesised expression or a term |
| `Compiler.Compiler.ResolveTermOf` | src/compiler/parser.rs:708-722 | One term, a compile-time read included |
| `Compiler.Compiler.AtomicTermOf` | src/compiler/parser.rs:631-643 | An operand without its trailing operators |
| `Compiler.Compiler.LookupSymbol` | src/compiler/parser.rs:810-823 | The probing loop returns what the table binds |
| `Compiler.Compiler.InsertSymbol` | src/compiler/parser.rs:825-842 | The probing loop makes exactly the insertion, or changes nothing when full |
| `Compiler.Compiler.HashOf` | src/compiler/parser.rs:800-808 | The byte loop computes FNV-1a |
| `Compiler.Compiler.StreamPush` | src/compiler/parser.rs:730-737 | Appends one word unless 128 are in use |
| `Compiler.Compiler.EmitGated` | src/compiler/parser.rs:367-374 | The gate comes before the words, and refuses without touching the stream |
| `Compiler.Compiler.ParseFn` | src/compiler/parser.rs:318-358 | Outcome and tables of a definition |
| `Compiler.Compiler.ParseLet` | src/compiler/parser.rs:302-316 | Outcome and tables of a binding |
| `Compiler.Compiler.ParseCommand` | src/compiler/parser.rs:442-626 | Outcome of every other command; no table changes |
| `Compiler.Compiler.LoopCommandOf` | src/compiler/parser.rs:532-582 | Outcome of a loop typed at the prompt |
| `Compiler.Compiler.StoreFn` | src/compiler/parser.rs:844-853 | A new function goes to the first free slot; a live name or a full table is refused and changes nothing |
| `Compiler.Compiler.ExportFn` | src/compiler/parser.rs:242-250 | Snapshot of a live body |
| `Compiler.Compiler.ImportFn` | src/compiler/parser.rs:254-267 | As if defined, with the same refusals |
| `Lines.ImportExact` | src/compiler/parser.rs:254-267 | An import is refused for a name over 16 bytes, more than 32 words, a live function of that name or a full table, in this order; otherwise the first free slot, and nothing else, changes |
| `Lines.ExportExact` | src/compiler/parser.rs:242-250 | An export returns the body of the live function of that name, and nothing when there is none or it does not fit |
| `Compiler.Cur.Next` | src/compiler/parser.rs:905-910 | Delivers the tokens of the line one by one, the lookahead first |
| `Compiler.Cur.Peek` | src/compiler/parser.rs:912-918 | Shows the next token and consumes nothing |
| `Symbols.TableRefinesMap` | src/compiler/parser.rs:810-842 | Every sequence of inserts behaves as a finite map of at most 32 names, for any hash function |
| `Symbols.LookupAfterInsert` | src/compiler/parser.rs:810-842 | Insertion binds its name and leaves every other binding alone |
| `Symbols.InsertKeepsProbed` | src/compiler/parser.rs:825-842 | Every stored name stays reachable along its own probe chain |
| `Symbols.NamesUnique` | src/compiler/parser.rs:828-839 | No name is stored twice |
| `Symbols.ChainHasNoGap` | src/compiler/parser.rs:812-821 | Every slot probed before the hit is taken by another name |
| `Symbols.InsertFailsIffFull` | src/compiler/parser.rs:825-842 | Insertion fails exactly for a new name when all 32 slots are used |
| `Lexer.Lexer.NextToken` | src/compiler/lexer.rs:63-110 | Delivers the first token of the remaining input and keeps the rest, counting the line feeds skipped |
| `Lexer.Lexer.ParseIdentifier` | src/compiler/lexer.rs:112-128 | The maximal word, keywords apart |
| `Lexer.Lexer.ParseDigits` | src/compiler/lexer.rs:130-207 | For digit strings of any length with underscores: the value when below 2^32, an overflow error otherwise, the whole numeral consumed in both cases |
| `Lexer.Lexer.ParseLiteral` | src/compiler/lexer.rs:130-207 | Decimal or hexadecimal by prefix; a prefix without digits is malformed |
| `Layout.SpellsValue` | src/compiler/lexer.rs:139-190 | A run of digits is worth n if and only if it writes n in positional notation, with digits of either case from a table and underscores standing for nothing |
| `Layout.HexReads` | src/compiler/lexer.rs:134-178 | 0x or 0X and any such digits lex to the number they write, or to an overflow exactly from 2^32 on |
| `Layout.DecReads` | src/compiler/lexer.rs:180-206 | Likewise for decimal numerals |
| `Layout.NumberRead` | src/compiler/lexer.rs:130-207 | Conversely, whatever lexes to a number writes it in one of the two ways |
| `Layout.BarePrefix` | src/compiler/lexer.rs:174-176 | A prefix without digits is malformed |
| `Layout.OneByte` | src/compiler/lexer.rs:63-110 | The tokens of each of the 256 one-byte lines |
| `Layout.LayoutReads` | src/compiler/lexer.rs:63-110 | However a line is written down - numbers in any form, any white space, none where nothing runs together - its tokens are read |
| `Layout.LayoutAnswers` | src/compiler/parser.rs:278-298 | So a line is answered alike however it is written down |
| `Printer.WriteDec` | src/drivers/uart.rs:134-149 | Writes the canonical decimal digits |
| `Printer.DecDigitsCanonical` | src/drivers/uart.rs:134-149 | They start with a zero only for zero, which is one digit |
| `Printer.WriteHex` | src/drivers/uart.rs:124-131 | Writes 0x and eight digits |
| `Layout.PrintedHex` | src/drivers/uart.rs:124-131 | The digits are capital |
| `Printer.LexDec` | src/drivers/uart.rs:134-149 | Lexing the decimal output returns the printed number |
| `Printer.LexHex` | src/drivers/uart.rs:124-131 | Lexing the hexadecimal output returns the printed number |
| `Printer.LexRender` | src/compiler/lexer.rs:63-110 | Lexing rendered tokens gives the tokens back |
| `ThreadedVm.Vm.Push` | src/kernel/exec.rs:52-63 | Appends, or drops the value and says so when 64 are in use |
| `ThreadedVm.Vm.Pop` | src/kernel/exec.rs:71-79 | Removes the top, or yields 0 on an empty stack |
| `ThreadedVm.Vm.LoadReg` | src/compiler/primitives.rs:36-41 | Replaces an address by what a read of it returns |
| `ThreadedVm.Vm.WriteReg` | src/compiler/primitives.rs:49-54 | Takes value and address and writes |
| `ThreadedVm.Vm.Binary` | src/compiler/primitives.rs:61-104 | Wrapping arithmetic on the two top operands; dividing by zero yields 0 |
| `ThreadedVm.Vm.RunThreadedStream` | src/kernel/exec.rs:107-124 | The in-place dispatch loop computes the run of the stream, and halts exactly when that run does |
| `ThreadedVm.CleanMeans` | src/kernel/exec.rs:52-124 | A clean run ends, and each primitive finds its operands on the stack and room for its result |
| `ThreadedVm.NullStops` | src/kernel/exec.rs:107-124 | A null word stops the run |
| `Streams.RunBlocks` | src/kernel/exec.rs:107-124 | A halt-terminated block stream executes its blocks in order, cleanly, when the stack has room for its peeks and one poke |
| `Streams.RunChain` | src/kernel/exec.rs:107-124 | An arithmetic chain leaves its left-to-right value, and only that |
| `Streams.ZeroDivisor` | src/compiler/primitives.rs:93-104 | A division by zero leaves 0 in the VM |
| `Streams.PokeThenPeek` | src/compiler/primitives.rs:36-54 | On plain RAM a poke and a peek of one address leave the value poked, and those two accesses |
| `Thumb2.MovImmLoads` | src/compiler/emitter.rs:221-239 | For every 32-bit value and r0 to r12 the emitted halfwords, decoded, leave exactly that value and change nothing else |
| `Thumb2.DecodeMovw` | src/compiler/emitter.rs:65-74 | The halfwords decode to MOVW of the low half |
| `Thumb2.DecodeMovt` | src/compiler/emitter.rs:77-86 | The halfwords decode to MOVT of the high half |
| `Thumb2.DecodeCall` | src/compiler/emitter.rs:221-308 | Every emitter call decodes to its intended instructions |
| `Thumb2.AcceptedCalls` | src/compiler/emitter.rs:221-308 | Which registers each call accepts |
| `Thumb2.DecodeStrLdr` | src/compiler/emitter.rs:89-104 | Stores and loads with an offset are accepted exactly for low registers and word offsets below 128, and then decode to that access |
| `Thumb2.DecodeDiv` | src/compiler/emitter.rs:163-168 | The divide encoding is not SDIV: in the group of long multiplies and divides it is one of the UNDEFINED encodings |
| `Thumb2.CallRuns` | src/compiler/emitter.rs:221-308 | Executing a sound call is what the interface promises, in every machine state |
| `Thumb2.AssemblyRuns` | src/compiler/emitter.rs:205-308 | Running a whole emission is the composition of its calls' meanings |
| `Thumb2.AssemblyTraps` | src/compiler/emitter.rs:285-293 | An emission that reaches a divide traps there |
| `Thumb2.MulPromise` | src/compiler/emitter.rs:271-283 | `dst = a * b` holds in every machine state if and only if b is not overwritten before use |
| `Emitter.Thumb2Emitter.Push16` | src/compiler/emitter.rs:205-217 | Appends a halfword, or reports the full buffer and writes nothing |
| `Emitter.Thumb2Emitter.EmitMovImm` | src/compiler/emitter.rs:221-239 | Appends the call's halfwords; on overflow exactly those that fit |
| `Emitter.Thumb2Emitter.EmitMul` | src/compiler/emitter.rs:271-283 | Likewise; high registers are refused and nothing is written |
| `Emitter.Thumb2Emitter.EmitArith` | src/compiler/emitter.rs:255-293 | Likewise for every operator |
| `Native.IsCompilable` | src/compiler/native.rs:155-186 | The scan answers the complexity check |
| `Native.CompileStream` | src/compiler/native.rs:57-140 | The code-generation loop leaves in the buffer the assembly of the plan for the stream, or falls back exactly when there is none |
| `Agreement.CompilesAndFits` | src/compiler/native.rs:57-140 | A stream of at most 128 words compiles exactly when the check accepts it and no literal is cut off; then it takes at most 257 halfwords |
| `Agreement.AgreeOnBus` | src/compiler/native.rs:71-140 | For every block stream, machine state and bus: native and threaded runs make the same accesses if and only if every poke finds its own address in the accumulator |
| `Agreement.AgreeOnEveryBus` | src/compiler/native.rs:71-140 | They agree on every bus if and only if the stream pokes a single address and peeks only after that |
| `Agreement.AgreeOnMemory` | src/compiler/native.rs:71-140 | On plain memory, for such streams, both back ends leave exactly what the pokes, in order, make of it |
| `Agreement.TwoAddressesDisagree` | src/compiler/native.rs:88-132 | Two pokes to different addresses: the generated code writes both values to the first |
| `Agreement.ChainsAgree` | src/compiler/native.rs:71-140 | For every chain of literals and operators the generated code returns the VM's value and leaves memory alone if the chain does not divide, and traps if it does |
| `Agreement.OtherRegistersKept` | src/compiler/native.rs:46-140 | Generated code that does not divide returns and leaves every register but r0 and r1 as it was |
| `Rv32.SplitRecombines` | src/compiler/emitter.rs:393-402 | hi20 and the sign-extended lo12 recombine to the immediate |
| `Rv32.MovImmLoads` | src/compiler/emitter.rs:390-404 | On a register file, with rd and rs1 decoded from the words, the code leaves the immediate in the register and changes nothing else if and only if it fits a signed 12-bit field |
| `Rv32.MovImmOf4096` | src/compiler/emitter.rs:108-111 | Loading 0x1000 leaves 0x100000 in the register |
| `Rv32.MovImmToZero` | src/compiler/emitter.rs:390-404 | With x0 as destination the code changes nothing |
| `Rv32.CodeFits` | src/compiler/native.rs:57-140 | At most 129 words of code, inside the 768-byte buffer |
| `ResponseTime.RtaResponseTime` | crates/hros-kernel/src/wcet.rs:40-57 | It panics if and only if a period is zero or an iterate it gets to does not fit the word; otherwise it answers the verdict of the iteration |
| `ResponseTime.NextIterate` | crates/hros-kernel/src/wcet.rs:44-47 | One pass computes the demand of the window; it panics exactly on a zero period or an intermediate that does not fit |
| `ResponseTime.FoundIsLeast` | crates/hros-kernel/src/wcet.rs:51-53 | An answer r is the least solution of the recurrence, within the deadline |
| `ResponseTime.ExceedsIsRight` | crates/hros-kernel/src/wcet.rs:48-50 | An early None means no solution up to the deadline exists |
| `ResponseTime.AnswerExact` | crates/hros-kernel/src/wcet.rs:38-57 | A solution is found if and only if one exists and the iteration settles within 100 steps; the documented answer is given if and only if a schedulable set settles |
| `ResponseTime.SettledExact` | crates/hros-kernel/src/wcet.rs:42-56 | A set that settles at step k is answered, with the iterate it settles at, if and only if k <= 99 and that is within the deadline |
| `ResponseTime.SchedulableSettles` | crates/hros-kernel/src/wcet.rs:42-56 | Every set with a solution r settles, at a step k <= r - w |
| `ResponseTime.StairsExact` | crates/hros-kernel/src/wcet.rs:42-56 | For every p from 2 on, a set that settles at step p: answered up to 99, given up on from 100 |
| `ResponseTime.CapNotReached` | crates/hros-kernel/src/wcet.rs:42-56 | The cap is never reached when deadline < w + 100 m, m at most every positive execution time |
| `ResponseTime.CapMissesSolution` | crates/hros-kernel/src/wcet.rs:42-56 | A schedulable task set the cap gets wrong |
| `Schedule.FinishesWithin` | crates/hros-kernel/src/wcet.rs:38-57 | Critical instant: under any sporadic higher-priority load and any backlog, a window that holds its own demand is long enough for a job arriving at any time |
| `Schedule.AnalysisSound` | crates/hros-kernel/src/wcet.rs:38-57 | If the analysis answers r, a job arriving at any time under any sporadic higher load is finished r ticks later, and r is within the deadline |
| `Schedule.EveryJobMeetsDeadline` | crates/hros-kernel/src/wcet.rs:38-57 | With the task itself sporadic and deadline at most its period, every one of its jobs has had all its ticks r ticks after its release |
| `Schedule.WorkConserved` | crates/hros-kernel/src/wcet.rs:38-57 | In that schedule every tick of the task's work is either done or pending |
| `Schedule.AnalysisTight` | crates/hros-kernel/src/wcet.rs:38-57 | With all tasks released together at 0 the job is unfinished before r and finished at r |
| `Ring.EveryInterleaving` | crates/hros-kernel/src/scheduler.rs:58-89 | Over every interleaving of atomic steps popped entries are a prefix of accepted ones, the rest is queued in order, and at most n-1 are queued |
| `Ring.ReadOffActions` | crates/hros-kernel/src/scheduler.rs:58-89 | Over every interleaving, read off the actions without slots or indices: accepted are the arguments of the pushes that reached their tail store, in order, popped the oldest of them, and each side is where its own actions put it |
| `Ring.PushLands` | crates/hros-kernel/src/scheduler.rs:58-77 | A push of v on an idle producer and a ring with room appends v, wherever the steps of the consumer fall |
| `Ring.PopTakesOldest` | crates/hros-kernel/src/scheduler.rs:80-89 | A pop on an idle consumer and a ring that is not empty returns the oldest entry, wherever the steps of the producer fall |
| `Ring.StepKeepsInv` | crates/hros-kernel/src/scheduler.rs:58-89 | Every atomic step keeps the protocol invariant |
| `Ring.StepRefinesQueue` | src/drivers/uart.rs:171-200 | Seen as a queue, only the two index stores do anything; no step disturbs an unread entry |
| `Ring.PushFailsIffFull` | crates/hros-kernel/src/scheduler.rs:58-77 | A push fails exactly when the ring is full at the moment head is read |
| `Ring.PopNoneIffEmpty` | crates/hros-kernel/src/scheduler.rs:80-89 | A pop returns None exactly when the ring is empty at the moment tail is read |
| `Ring.TaskQueue.PushTask` | crates/hros-kernel/src/scheduler.rs:58-77 | Appends, or refuses exactly when full |
| `Ring.TaskQueue.PopTask` | crates/hros-kernel/src/scheduler.rs:80-89 | Removes the oldest, or None exactly when empty |
| `Ring.TaskQueue.Len` | crates/hros-kernel/src/scheduler.rs:93-101 | The number of queued entries |
| `Ring.TaskQueue.IsFull` | crates/hros-kernel/src/scheduler.rs:109-112 | True exactly when n-1 entries are queued |
| `Ring.TaskQueue.Capacity` | src/drivers/pcie.rs:158-162 | The number of entries that still fit |
| `Capability.VerifyRangeContiguous` | crates/hros-cap/src/lib.rs:144-163 | The windowed check is true if and only if the bit of every block in the range is set |
| `Capability.BuildMaskWindow` | crates/hros-cap/src/lib.rs:28-48 | The mask has exactly the bits of the blocks that lie in the window, and there is none exactly when no block does |
| `Capability.WindowBits` | crates/hros-cap/src/lib.rs:150-158 | The 64-bit view of a window agrees with the 32-bit registry words |
| `Capability.WindowLoads` | crates/hros-cap/src/lib.rs:150-158 | Derived from little-endian bytes: the four 64-bit loads of a window show exactly the bits of the 32-bit registry words |
| `Capability.ViewIsLoad` | crates/hros-cap/src/lib.rs:154-157 | The set view used by the check is the set of bits of that 64-bit load |
| `Capability.VerifyVectorMeans` | crates/hros-cap/src/lib.rs:76-85 | The vector predicate holds exactly when every masked bit is granted |
| `Capability.ScalarIsPlain` | crates/hros-cap/src/lib.rs:63-70 | The scalar path answers the plain check of its block |
| `Capability.Acquire` | src/capabilities/registry.rs:166-177 | Wins exactly when the id is tracked and free; sets that bit and no other |
| `Capability.Release` | src/capabilities/registry.rs:181-187 | Clears that bit and no other |
| `Capability.Registry.TryAcquire` | src/capabilities/registry.rs:166-177 | The fetch-or implements the acquire step |
| `Capability.Registry.Free` | src/capabilities/registry.rs:181-187 | The fetch-and implements the release step |
| `Capability.Registry.Available` | src/capabilities/registry.rs:144-153 | True exactly for a tracked, unclaimed id |
| `Capability.TokensStayLinear` | src/capabilities/tokens.rs:48-63 | Over every interleaving of claims and drops a bit is set if and only if exactly one token for it is live |
| `Capability.StepIsLocal` | src/capabilities/registry.rs:166-187 | No step changes another resource's bit |
| `Capability.ClaimWins` | src/capabilities/tokens.rs:48-57 | A claim mints a token exactly when the resource is tracked and nobody holds it |
| `Capability.DropFrees` | src/capabilities/tokens.rs:60-63 | Dropping a live token clears its bit and consumes it, and no other |
| `Capability.ClaimDropClaim` | src/capabilities/tokens.rs:48-63 | Claim, drop, claim: won both times, and as if never claimed in between |
| `Capability.GateMeans` | src/capabilities/registry.rs:62-73 | With the super-user bit set everything passes; without it each of the seven peripheral ranges passes exactly while its own bit is set, and outside them flash and SRAM pass and nothing else |
| `Capability.GateExact` | src/capabilities/registry.rs:95-121 | The same as one condition on the bits |
| `Capability.GateFollowsTokens` | src/capabilities/registry.rs:95-121 | Over every interleaving of claims and drops an address passes exactly while the token of its peripheral or the super-user token is live, or it is flash or SRAM |
| `Capability.ClaimOpens` | src/capabilities/registry.rs:166-187 | Claiming a peripheral opens its addresses, dropping it closes them, and no other address is affected |
| `ProgramStore.Ram.Save` | src/drivers/pstore.rs:39-53 | The record is in place despite the overlapping stores, nothing outside its span changed, and an error changes nothing |
| `ProgramStore.Ram.Load` | src/drivers/pstore.rs:56-73 | Reads what the slot holds into the buffers, with the errors in order |
| `ProgramStore.SlotPlaces` | src/drivers/pstore.rs:29-36 | Slots lie 277 bytes apart from the start of the window, and there are none exactly when there is no window |
| `ProgramStore.LoadAfterSave` | src/drivers/pstore.rs:39-73 | A saved record is what a load returns |
| `ProgramStore.LoadDependsOn` | src/drivers/pstore.rs:56-73 | A load depends on nothing outside the record it finds |
| `ProgramStore.SlotsIndependent` | src/drivers/pstore.rs:29-53 | Saving one slot leaves every other slot's load unchanged, adjacent 64-word records apart |
| `ProgramStore.SpillIntoNext` | src/drivers/pstore.rs:35-52 | After a 64-word save the next record survives if and only if the upper three bytes of the last word happen to equal its name length |
| `ProgramStore.SpillIntoFree` | src/drivers/pstore.rs:35-59 | After a 64-word save the next slot, if free, stays free if and only if the bytes that spill over spell no name length |
| `ProgramStore.SpillFromNext` | src/drivers/pstore.rs:35-52 | A 64-word record survives a save in the slot after it if and only if the upper three bytes of its last word equal the new name length |

## Left out

- Compile-time `peek` in an expression is an arbitrary function of the address that stays the same during one line; side effects of such reads are not modelled.
- Reads and writes at the top of the address space do not wrap; accesses have no alignment faults.
- The condition flags of Thumb-2 instructions, cache fences, cycle counts, and pokes that overwrite the code buffer: code memory is separate.
- RV32 beyond immediate loading and code size: stores, loads and arithmetic are not executed.
- Capability-guard opcodes (src/compiler/emitter.rs:310-347, 452-483): the scalar guards are placeholders.
- Memory orderings weaker than sequential consistency in the rings.
- Release builds in which the response-time arithmetic wraps instead of panicking.
- The error-reporting scan in src/capabilities/registry.rs:293-308, which mixes peripheral ids with block numbers; the static registry's eight words, which cover only the first window, appear as a bound on the vector.
- `steal`, which bypasses the registry's answer, and the audit log of super-user writes.
- `reg_set_bit` and `reg_clr_bit` count the shift distance modulo 32, as a release build does; a debug build panics from 32 on.
- Console.Typed: executes the direct accesses and the registry commands; what a returned program does is in `Sessions` and `EndToEnd`, and storing, spawning and the drivers are not executed here.
- The rest of the read-eval-print loop: line editing and printing.
- PendSV context switching, drivers (flash, PWM, SPI, timer, ECAM), the bump pool, shadow stack, audit ring and benchmarks: register I/O or easy members.
- Compiler.Compiler.EmitGated: the source pushes each word of a statement by its own call; here a loop over the block's words does it.
- ProgramStore.SlotsIndependent: excludes adjacent 64-word records, whose fate ProgramStore.SpillIntoNext, ProgramStore.SpillIntoFree and ProgramStore.SpillFromNext state.
