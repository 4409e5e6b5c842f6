# Verified models of the WCPL compiler

WCPL compiles a subset of C to WebAssembly. This project models the parts of the compiler, of its library and of
two of its example programs whose correctness is hardest to see, and proves what they are for. Everything is stated
for all inputs, all states and all runs; `dafny verify dfyconfig.toml` checks the whole project.

What is modelled, by file:

- **DEFLATE decoder** (`Bits`, `Huffman`, `Inflate`, `InflateMethods`): the bit reader, canonical Huffman tables,
  the bit-at-a-time decoder, run-length coded code lengths, overlapping copies and the block loop, in place over the
  decoder's fields and its output array. `DeflateFormat` and `DeflateStream` write the format of RFC 1951 (sections
  3.2.2 to 3.2.7) down independently, as an encoding of token and block lists into bit strings, and prove that the
  decoder inverts it: it succeeds on an input exactly when the input begins with an encoding whose expansion has room.
  `DeflateStrict` proves that there is only one, and which inputs the standard allows; `DeflateTables` says what the
  symbols and the fixed codes stand for without the tables that decoder and format share.
- **Control flow** (`ControlFlow`, `ControlFlowProof`, `SwitchTable`, `WasmControl`, `ControlPipeline`, `ControlAccepted`,
  `ControlStops`): lowering
  `while`, `do`, `for`, `switch`, `break`, `continue` and gotos to enclosing labels into labelled blocks, then into
  `block`, `loop`, `br`, `br_if`, `br_table`. Semantics on all three levels is indexed by the number of loop
  repetitions, so divergence is kept too. Expressions are arbitrary state transformers.
- **Peephole pass** (`Peephole`): the rewriting loop over the flat instruction buffer, against the structured code
  the buffer stands for, with locals, globals, memory, and traps.
- **Constant folding** (`IntTypes`, `FoldOps`, `FoldMeaning`, `ConstFold`, `ConstFoldProof`): the compile-time evaluator and the code
  generator for integer expressions over all eleven integer types, with the words of the WebAssembly Core
  Specification (section 4.3.2). Expressions change variables by assignments and increments, and anything by operands
  such as calls; values are given in C's order of evaluation and in that of the compiled code.
- **Hoisting of locals** (`Hoist`, `HoistProof`, `Hoister`, `HoistSuccess`): the flat scope and the renaming, against C's block scoping.
- **Stack pointer** (`StackCode`, `StackBalance`, `StackAreas`, `StackLasting`, `StackProof`): frames, `alloca`, argument areas of
  variadic calls and returns, over all runs of all programs, calls included, with a log of every area claimed and released
  and of what is stored for variadic calls.
- **Type layout and static data** (`Layout`, `Bin`, `InitData`): sizes, alignments, member offsets, the little-endian
  writers, and the in-place initialization of structures and arrays.
- **Symbols** (`Symbols`): the open-addressing interning table with its rehash, as a list of distinct names.
- **Hexadecimal floating point** (`HexFloat`): printing into a buffer and reading back.
- **Parsing** (`ExprSyntax`, `ExprParser`, `ExprGrammar`, `Declarators`): precedence climbing against C's productions, and
  C's inside-out declarators.
- **Examples** (`SudokuBoard`, `SudokuUpdate`, `SudokuSearch`, `SudokuPaths`, `SudokuSolver`, `SudokuGrid`, `SudokuCases`;
  `ModArith`): the exact-cover Sudoku solver from its matrix to its printed grids, for every text of 81 characters and
  with counts in bytes that wrap around, and the modular arithmetic of the pi program.

Imperative parts of the source are methods over the same fields, arrays and loops, each tied to a specification
function or predicate; the properties are then proved of that specification. Recursive parts are functions.
`Arith` and `Bits` hold the arithmetic they share. Tables and helpers that a method and its specification share are
described once more by lemmas that do not name them.

Where the code does not do what one would expect, the code is followed and the difference is a theorem:

- Sorted, distinct `case` values 2^31 or more apart can trip an assertion of the table builder (`SwitchTable.CompileTable`
  says exactly when, `SwitchTable.ExtremeCasesOverflow` gives two such cases); a body with such a switch has no code
  (`ControlStops.NoCodeIff`).
- A `?:` whose branches are each a number or a variable is compiled to `select`, which reads them before the condition:
  `(x = 1) ? x : 2` gives what `x` was (`ConstFoldProof.SelectReadsEarly`), and so can `&&` and `||` read their second
  operand too early, as in `x++ || x` (`ConstFoldProof.OrReadsEarly`). The code does what C says exactly when it is no
  `select` or the condition leaves the branch it chooses as it was (`ConstFoldProof.CondExact`,
  `ConstFoldProof.LogicalExact`). Folding makes an `if` a `select` in `(x = 1) ? x : 1 + 1`
  (`ConstFoldProof.FoldReadsEarly`, and `ConstFoldProof.FoldCondExact` for when that is harmless).
- `&&` and `||` give the operand that decides, converted, and not 0 or 1; it is true exactly when C's result is
  (`ConstFoldProof.LogicalMeans`).
- A folded `?:` takes the type of the branch it chooses and narrows its condition to 32 bits
  (`ConstFoldProof.CondFoldExact` says exactly when this is harmless). A folded shift agrees with the instruction for all
  operands only for counts below the width, and for right shifts by 63 of signed 32-bit types (`FoldOps.ShiftFoldExact`;
  `FoldOps.ShiftFoldFails` is `2 >> 33`). A folded quotient agrees unless the least number of its type is divided by -1
  (`FoldOps.QuotientFoldExact`); for `int` it then folds to a number where the instruction traps
  (`FoldOps.QuotientFoldFails`).
- Moving an addition into a load's offset and dropping an unused load change what happens when the address addition
  wraps around or the load is out of bounds (`Peephole.OffsetRuleExact`, `Peephole.DropRuleExact`). The rule that removes a
  32-bit sign extension after a 64-bit byte load never applies to well-typed code.
- A peephole pass ends when a rewrite leaves the index behind the last instruction, which is then not looked at: more passes
  can be needed, but only for code that ends with an instruction that can end a pattern (`Peephole.OnePass`,
  `Peephole.SecondPass`).
- A hoisted local keeps its source name, so a use of a global of that name elsewhere in the function is captured
  (`HoistFunction.HoistingKeepsBindings` is exact about it, `HoistFunction.GlobalIsCaptured` is such a function).
- An `alloca` among the variadic arguments of a call, or in the expression for the function it calls, is released when
  that call ends (`StackProof.VariadicArgumentReleased`). Every other stays in use until its function returns
  (`StackProof.AreasLast` says both, for every statement).
- A size within 15 of 2^32 given to `alloca` is rounded up to 0 (`StackBalance.RoundedCovers`).
- A back-reference to before the start of the output is read as zeros, where RFC 1951 forbids it
  (`DeflateStrict.BeforeStart`). An input that decodes is one that the standard allows exactly when its output does not
  depend on what stands before (`DeflateStrict.StrictStream`).
- The Sudoku solver reads before its arrays exactly when some cell is empty and the first constraint to which the given
  digits leave at most one choice has none (`SudokuGrid.SolveGrid`, `SudokuCases.BlockedAtOnce`). Other puzzles without a
  solution it answers with nothing (`SudokuCases.BlockedLater`), unless the given digits clash: then what it prints can
  hold their clash, and no other (`SudokuGrid.CompleteFilled`); a full text it prints as it is (`SudokuCases.OnesClash`).
- A braced initializer for a union is always refused (`InitData.UnionNeverAccepted`).
- Hexadecimal text that was not printed here can be read as another number than it says: after a leading 0 the exponent is
  ignored, with exponent -1023 (-127) a leading 1 is lost, and the last bit of a `float` is cut off
  (`HexFloat.ReadsExactly` says exactly which texts are read as what they say, `HexFloat.Misread` is one that is not).
- A nameless function declarator with parameters is the one kind of type that cannot be read back
  (`Declarators.ReadableIff`).

## Model

| member | source | states |
|---|---|---|
| `Bits.StreamByte` | l.c:4517-4528 | The bit stream takes each input byte least significant bit first: the eight bits at a byte boundary are that byte. |
| `Bits.LsbTake` | l.c:4517-4528 | Masking and shifting the bit buffer takes off exactly the next `need` bits and leaves exactly the bits after them. |
| `InflateMethods.Zdst.Bits` | l.c:4517-4528 | Reading `need` bits gives the number they spell in the stream and advances by exactly `need`; with too few bytes left it reports -12. |
| `Huffman.LeftIsUnusedKraftSpace` | l.c:4586-4607 | The running `left` of the table builder is the code space of each length that no shorter or equal codeword uses. |
| `Huffman.ConstructResultMeaning` | l.c:4586-4607 | The result is negative exactly for over-subscribed lengths, zero exactly for complete (or no) codes, and otherwise the unused Kraft space. |
| `Huffman.SlotOrder` | l.c:4600-4604 | The symbol table lists symbols by code length, then by symbol. |
| `Huffman.SlotFresh` | l.c:4600-4604 | No two symbols share a place in the table. |
| `Huffman.CodeFits` | l.c:4586-4607 | Accepted lengths give every symbol a canonical codeword that fits its length. |
| `Huffman.MatchUnique` | l.c:4552-4584 | At most one symbol's codeword starts at a stream position: the code is prefix free. |
| `Huffman.MatchesIsCodeword` | l.c:4552-4584 | What the decoder recognises is the canonical codeword of RFC 1951 section 3.2.2, bit for bit. |
| `Huffman.Huff.Construct` | l.c:4586-4607 | The counts are the numbers of symbols of each length, an accepted table holds every symbol at its canonical place, a refused one is untouched. |
| `Huffman.OverSubscribed` | l.c:4593-4599 | For over-subscribed lengths the result is by how much, at the first length at which they are. |
| `Huffman.Huff.FillSymbols` | l.c:4600-4604 | Filling by running offsets puts each symbol at its canonical place. |
| `InflateMethods.Zdst.Decode` | l.c:4552-4584 | Decoding across byte refills returns the symbol whose codeword starts at the position and consumes exactly its length; -10 when 15 bits match nothing, -12 at the end of input. |
| `InflateMethods.Zdst.DecodeBuffered` | l.c:4557-4574 | Using up the buffered bits either finds that symbol and restores the buffer behind it, or advances the search with no codeword that short. |
| `DeflateFormat.SymbolAtIff` | l.c:4552-4584 | A symbol is decoded at a position exactly when its canonical codeword is there. |
| `Inflate.BackCopyPeriodic` | l.c:4646-4654 | A copy repeats its source with period `dist`, overlapping or not. |
| `DeflateTables.LengthRanges` | l.c:4609-4614 | Length symbol 257 + l has l / 4 - 1 extra bits from l = 8 on, 285 and the first eight none; the lengths of 257 to 284 follow one another from 3, 285 is 258. |
| `DeflateTables.DistRanges` | l.c:4615-4622 | Distance symbol d has d / 2 - 1 extra bits from d = 2 on; the distances follow one another from 1 to 32768. |
| `DeflateTables.LengthsSpelled` | l.c:4609-4614 | The lengths that can be spelled are those from 3 to 258, each in one way, 258 in two. |
| `DeflateTables.DistsSpelled` | l.c:4615-4622 | The distances that can be spelled are those from 1 to 32768, each in one way. |
| `InflateMethods.Zdst.Copy` | l.c:4636-4655 | A length and distance pair appends exactly the copy the format asks for, or fails as the format asks. |
| `InflateMethods.Zdst.PutCopy` | l.c:4646-4654 | The byte-by-byte copy in the output array is the overlapping copy, and touches nothing else. |
| `InflateMethods.Zdst.Codes` | l.c:4624-4658 | Decoding a run of literals and copies produces what the format's token rounds produce, in output and position. |
| `DeflateFormat.CodesComplete` | l.c:4624-4658 | Every encoded token list decodes to its LZ77 expansion. |
| `DeflateFormat.CodesSound` | l.c:4624-4658 | Whatever decodes is the encoding of some token list, with that expansion. |
| `DeflateFormat.LengthsComplete` | l.c:4710-4732 | Run-length coded code lengths decode to their expansion. |
| `DeflateFormat.LengthsSound` | l.c:4710-4732 | Whatever lengths are read were encoded by some list of length operations. |
| `DeflateStream.HeaderComplete` | l.c:4687-4740 | Every valid dynamic header is read as the two codes it describes. |
| `DeflateStream.HeaderSound` | l.c:4687-4740 | Every header that is read is the encoding of some valid description. |
| `DeflateTables.OrderIs` | l.c:4684-4685 | Code length lengths are sent for 16, 17, 18, 0, and then outwards from 8. |
| `DeflateTables.HeaderLimits` | l.c:4696-4701 | A dynamic header describes 257 to 286 and 1 to 30 codewords, with 4 to 19 lengths sent. |
| `InflateMethods.Zdst.DynamicHeader` | l.c:4697-4708 | The code length code is read in the permuted order into its places. |
| `InflateMethods.Zdst.RunLengths` | l.c:4710-4732 | Reading the run-length coded lengths in place gives the lengths of the format or its error. |
| `Inflate.UsableIff` | l.c:4736-4739 | The codes accepted are the complete ones, and those with codewords of one bit only that are not over-subscribed. |
| `InflateMethods.Zdst.Dynamic` | l.c:4687-4742 | A dynamic block decodes as its header and data say, with the error codes of the source. |
| `Inflate.FixedCodesFit` | l.c:4665-4682 | The fixed lengths of RFC 1951 section 3.2.6 are a complete literal code and an incomplete distance code. |
| `DeflateTables.FixedLiteralCodeword` | l.c:4665-4682 | The fixed literal codewords are those of the table in RFC 1951 section 3.2.6. |
| `DeflateTables.FixedDistanceCodeword` | l.c:4665-4682 | A fixed distance codeword is the symbol's number in five bits. |
| `InflateMethods.Zdst.Fixed` | l.c:4665-4682 | A fixed block decodes with the fixed codes, whose tables are built at most once and stay valid. |
| `InflateMethods.Zdst.Stored` | l.c:4530-4548 | A stored block skips to a byte boundary, checks the complement and copies its bytes, with the source's errors. |
| `DeflateStream.StoredComplete` | l.c:4530-4548 | Every stored block decodes to its data. |
| `DeflateStream.BlockComplete` | l.c:4756-4768 | One block of any kind decodes to its expansion. |
| `DeflateStream.BlockSound` | l.c:4756-4768 | One decoded block is the encoding of some block of some kind. |
| `DeflateStream.StreamComplete` | l.c:4744-4774 | Every encoding of every block list decodes to its expansion, given the room. |
| `DeflateStream.StreamSound` | l.c:4744-4774 | Whatever decodes without error is the encoding of some block list. |
| `DeflateStream.DecodesIffEncoded` | l.c:4744-4774 | Decoding succeeds exactly on inputs that begin with an encoding whose expansion has room. |
| `DeflateStrict.EncodingUnique` | l.c:4744-4774 | An input begins with at most one encoding. |
| `DeflateStrict.StrictIff` | l.c:4646-4654 | No copy of a block list reaches before the start exactly when its expansion is the same after any bytes. |
| `DeflateStrict.StrictStream` | l.c:4744-4774 | An input that decodes begins with an encoding RFC 1951 allows exactly when decoding it after any output adds the same bytes to that output. |
| `DeflateStrict.BeforeStart` | l.c:4646-4654 | An input that decodes to three zeros and that RFC 1951 does not allow. |
| `InflateMethods.Zinflate` | l.c:4744-4774 | Returns the decoder's verdict, exactly the expanded bytes in the destination and nothing beyond them, and the bytes that cover the bits consumed. |
| `ControlFlow.JumpsHaveTargets` | c.c:2035-2046 | An accepted body never leaves with an unmatched break, continue or goto. |
| `ControlAccepted.AcceptsIff` | c.c:2035-2046 | A statement is accepted exactly where every jump unmatched in it has a target, when no switch in it has a case twice. |
| `ControlAccepted.BodyAccepted` | c.c:2035-2046 | A body is accepted exactly when it leaves no jump unmatched and no switch in it has a case twice. |
| `ControlFlowProof.TableLabel` | c.c:1967-1996 | The sorted case list sends each value to its clause, else to the default clause, else past the switch. |
| `ControlFlowProof.NestEnter` | c.c:1987-1994 | Entering the nested labelled blocks at a clause's label runs that clause and everything it falls through to. |
| `ControlFlowProof.LowerKeepsRuns` | c.c:1906-2058 | Every accepted statement, lowered under any enclosing labels, ends in the same state with the corresponding jump, or is still looping. |
| `ControlFlowProof.BodyKeepsRuns` | c.c:1906-2058 | Lowering a whole body changes no run, terminating or not. |
| `SwitchTable.TableSelects` | c.c:3469-3504 | Subtracting the lowest case modulo 2^32 and indexing unsigned selects what the case list selects, for every selector. |
| `SwitchTable.TableSize` | c.c:3488-3500 | There is a table exactly for two cases or more of which the greatest is at most twice their number above the lowest; it has an entry for each value between them. |
| `SwitchTable.CompileTable` | c.c:3469-3504 | Builds exactly the gap-filled table, gives up exactly when there are too many gaps, and fails its assertion exactly when a 32-bit difference overflows at the case where it would give up. |
| `SwitchTable.NarrowNeverOverflows` | c.c:3492 | Cases closer together than 2^31 never trip the assertion. |
| `SwitchTable.ExtremeCasesOverflow` | c.c:3492 | The least and greatest `int` as cases trip it. |
| `WasmControl.ChainRun` | c.c:3507-3534 | The equality chain branches to the label the case list selects. |
| `WasmControl.SwitchRun` | c.c:3469-3534 | Either form of a switch branches to that label, evaluating the selector once. |
| `WasmControl.CompileKeepsRuns` | c.c:3437-3466 | Compiled labelled blocks end like the tree they come from, from any state, operands and registers. |
| `ControlPipeline.LowerSorts` | c.c:1759-1771 | Lowering leaves every case list strictly ascending, as the table builder needs. |
| `ControlPipeline.BodyCodeRunsLikeSource` | c.c:3863-3910 | The WebAssembly code of an accepted body, unless the compiler stops at a switch, ends normally, returns, or is still looping exactly as the C body does, in the same state, and never gets stuck or branches out. |
| `ControlStops.NoCodeIff` | c.c:3488-3492 | An accepted body has no code exactly when the case values of one of its switches, in order, make the table builder's assertion fail. |
| `Peephole.RewriteKeeps` | c.c:4051-4126 | Replacing straight instructions by equivalent ones anywhere in the flat buffer keeps the structured code's behaviour. |
| `Peephole.PairRuleReplaces` | c.c:4057-4096 | Every two-instruction rule replaces code by code that does the same where the original does not trap. |
| `Peephole.TripleRuleReplaces` | c.c:4098-4122 | So does every three-instruction rule. |
| `Peephole.Buffer.Pairs` | c.c:4057-4096 | One two-instruction step on the buffer improves it and moves the index as the source does. |
| `Peephole.Buffer.Triples` | c.c:4098-4122 | One three-instruction step likewise. |
| `Peephole.Buffer.Pass` | c.c:4055-4124 | A pass terminates although the index steps back, tries the rules at every place in the source's order, and keeps the behaviour. |
| `Peephole.Buffer.Optimize` | c.c:4051-4126 | The pass at any level does the rounds that the level allows and no more, and keeps the behaviour; after it none of the pairs and triples below is left, or each of these rounds took an instruction away. |
| `Peephole.PassTidy` | c.c:4055-4124 | Although a pass goes back after a rewrite only one or two places, it leaves no rule to apply but at the last instruction; and there none if the code did not end with an instruction that can end a pattern. |
| `Peephole.OnePass` | c.c:4051-4126 | For such code one pass does it, whatever the level. |
| `Peephole.SecondPass` | c.c:4097 | Code that is not clean after one pass, and is after two. |
| `Peephole.CleanIff` | c.c:4057-4122 | The rules apply to exactly these: what is pushed and dropped, a variable set and read at once, an added 0, an extension done twice, a product of constants, a constant added to an address with room in the offset. |
| `Peephole.OffsetRuleExact` | c.c:4110-4120 | For loads without the marker and on every machine: moving an addition into the offset keeps what the code does exactly when the addition does not wrap or the wrapped access is out of bounds as well. |
| `Peephole.OffsetRuleFails` | c.c:4110-4120 | A machine on which a load that the rule rewrites succeeds before and traps after. |
| `Peephole.MarkerOnlyStops` | c.c:4110-4120 | The marker for wrapped addresses only takes loads away: without it every load does what WebAssembly says. |
| `Peephole.SumMeans` | c.c:4110-4120 | Adding a constant to an address gives the sum modulo 2^32, marked exactly when a non-negative constant takes it past 2^32. |
| `Peephole.LoadMeans` | c.c:4089-4094 | A load gives what its bytes decode to; a signed 16-bit one of a 32-bit word extends the sign. |
| `Peephole.ExtendMeans` | c.c:4084-4095 | Sign extension keeps the low bits and gives a number that they can hold. |
| `Peephole.OnlyAddMarks` | c.c:4110-4120 | Nothing but an addition marks its result. |
| `Peephole.BranchOn` | c.c:4051-4126 | Conditional branches and conditional code ask whether the operand is zero, tables select by its value. |
| `Peephole.BranchOut` | c.c:4051-4126 | After a branch the code goes on past the block of its label, with the operands from before that block, and leaves every other. |
| `Peephole.BranchBack` | c.c:4051-4126 | A branch to a loop's label runs the loop again. |
| `Peephole.DropRuleExact` | c.c:4069-4072 | Dropping a loaded value can be shortened exactly when the load is in bounds. |
| `Peephole.DropRuleFails` | c.c:4069-4072 | A load out of bounds whose trap the rewrite removes. |
| `FoldOps.OnTypeMatches` | c.c:381-469 | In every promoted type each folded binary operation gives the word the instruction computes, wherever the two are tied. |
| `FoldOps.ShiftFoldExact` | c.c:430-453 | In every promoted type and for every count, a folded left or right shift agrees with the instruction for all operands exactly for counts below the width, or for a right shift by 63 of a signed 32-bit type. |
| `FoldOps.ShiftFoldFails` | c.c:453 | `2 >> 33` folds to 0, the instruction gives 1. |
| `FoldOps.QuotientFoldExact` | c.c:428-451 | A folded quotient or remainder agrees with the instruction exactly outside the overflowing pair of its type. |
| `FoldOps.QuotientFoldFails` | c.c:450 | The least `int` divided by -1 folds to itself, the instruction traps. |
| `FoldMeaning.QuotientsFolded` | c.c:450-451 | A folded quotient and remainder q and r of x and y satisfy x = y q + r with r smaller than y and of the sign of x, for operands of any types, outside the overflowing pair. |
| `FoldMeaning.QuotientWords` | c.c:2581-2640 | So do those of the instructions, which trap exactly for 0 and, dividing, for the overflowing pair. |
| `FoldMeaning.ArithmeticWords` | c.c:2581-2640 | Sums, differences and products of words are taken modulo 2^32 or 2^64. |
| `FoldMeaning.ShiftWords` | c.c:2581-2640 | Shifts by the count modulo the width multiply modulo the word, or divide and round down. |
| `FoldMeaning.ComparisonWords` | c.c:2581-2640 | Comparisons are those of the numbers that the words stand for. |
| `FoldMeaning.BitWords` | c.c:2581-2640 | Each bit of a conjunction, disjunction or exclusive disjunction is told by the two at its place. |
| `FoldMeaning.UnaryFolds` | c.c:329-379 | Folded unary operators give the promoted value, its negative, its complement or whether it is 0. |
| `FoldMeaning.TypeRanges` | c.c:219-260 | The values of each of the eleven types. |
| `FoldMeaning.ConvertMeans` | c.c:262-289 | Converting gives the one value of the type that differs by a multiple of the number of its values. |
| `FoldMeaning.CommonIs` | c.c:177-211 | Smaller types are promoted to `int`; of two promoted types the later in their order is taken. |
| `ConstFold.ConstantIff` | c.c:1506-1559 | Constant expressions are those without variables, assignments, calls, memory accesses and logical operators. |
| `ConstFold.WellTypedIff` | c.c:219-260 | Well-typed expressions are those whose literals are values of their types. |
| `ConstFoldProof.CastMatches` | c.c:262-289 | Converting at compile time gives the word that the generated cast computes, for every pair of types. |
| `ConstFoldProof.CastRun` | c.c:2321-2444 | The instructions of a cast do that to the top of any stack. |
| `ConstFoldProof.UnMatches` | c.c:329-379 | Folded unary operations give the word of their instructions. |
| `ConstFoldProof.CompileComputes` | c.c:2927-3108 | The code of every integer expression, effects included, leaves exactly its value in the compiled order on any stack and exactly its effects, or traps exactly when there is no value. |
| `ConstFoldProof.SimpleIff` | c.c:2742-2752 | The expressions that `select` is used for are the numbers and the variables. |
| `ConstFoldProof.CompileInOrder` | c.c:2927-3108 | It leaves C's value and C's effects wherever each `select` evaluated has a condition that leaves the branch it chooses as it was. |
| `ConstFoldProof.CondExact` | c.c:3078-3088 | The code of a conditional leaves C's value and effects exactly when it is no `select`, or its condition leaves the branch it chooses as it was. |
| `ConstFoldProof.LogicalExact` | c.c:3805-3810 | That of the logical operators does exactly when the second operand is no number or variable, is not needed, or is left as it was by the first. |
| `ConstFoldProof.LogicalMeans` | c.c:3805-3810 | In C's order the second operand is evaluated only when needed; the result is true exactly when C's is, and is C's 0 or 1 exactly when it is at most 1. |
| `ConstFoldProof.SelectReadsEarly` | c.c:3083-3088 | `(x = 1) ? x : 2` is 1 in C, and what `x` was in the code. |
| `ConstFoldProof.OrReadsEarly` | c.c:3083-3088 | With `x` 0, the logical or of `x++` and `x` is 1 in C, and 0 in the code. |
| `ConstFoldProof.AssignComputes` | c.c:3218-3231 | An assignment to a local or a global stores the converted value and leaves it on the stack. |
| `ConstFoldProof.PostComputes` | c.c:3209-3223 | `x++` and `x--` leave the old value and store the stepped one, converted to the type of the variable. |
| `ConstFoldProof.EvaluateMatches` | c.c:939-948 | Static evaluation gives the type and the value of the compiled expression, in either order and without effects, under the stated agreement. |
| `ConstFoldProof.FoldKeepsValue` | c.c:1653-1719 | Folding any chosen constant subexpressions keeps the type, and C's value and effects in every state; in the compiled order it does where no `if` becomes an unsafe `select`. |
| `ConstFoldProof.FoldIsFolding` | c.c:1709-1718 | What the compiler folds is one such choice. |
| `ConstFoldProof.FoldKeepsCode` | c.c:1653-1719 | The code of an expression with any chosen constant subexpressions folded, and of what the compiler makes of it, does on every stack what the code of the original does, where no `if` evaluated becomes a `select` whose condition changes the branch it chooses. |
| `ConstFoldProof.FoldCondExact` | c.c:1653-1719 | A conditional with folded parts does what it did exactly when that is not so of it. |
| `ConstFoldProof.FoldReadsEarly` | c.c:1653-1719 | `(x = 1) ? x : 1 + 1` gives 1, and what `x` was when folded. |
| `ConstFoldProof.CondFoldExact` | c.c:939-948 | Folding a constant conditional keeps type and value exactly when the chosen branch has the common type and, if narrowing zeroed the condition, both branches are equal. |
| `ConstFoldProof.CondTypeChanges` | c.c:939-948 | A conditional whose type folding changes. |
| `ConstFoldProof.CondNarrows` | c.c:939-948 | A conditional whose value folding changes, by narrowing its condition. |
| `HoistFunction.HoistFunction` | c.c:1475-1500 | Succeeds exactly for distinct parameters and an acceptable body, with the hoisted locals and the flat body of the specification. |
| `HoistSuccess.HoistsExactly` | c.c:1376-1500 | That is exactly when the parameters differ, declarations stand directly in blocks, no block declares a name twice, and no register variable's address is taken. |
| `HoistFunction.Hoister.Expr` | c.c:1376-1472 | Hoisting in place keeps to the recursive specification, errors included. |
| `HoistFunction.Hoister.BlockItems` | c.c:1398-1431 | One block: declarations move out under their new names, the other items are hoisted in their scope. |
| `HoistFunction.Hoister.MarkAuto` | c.c:1438-1460 | Marks the local of that name, else the plain parameter, and fails exactly for a register local. |
| `Hoist.SourceIff` | c.c:1474-1500 | Hoisting begins with trees in which no name is made up. |
| `HoistProof.NewNameFits` | c.c:1403-1421 | A new name is no parameter's and no other local's. |
| `HoistProof.UseAgrees` | c.c:1379-1382 | A renamed use refers to the declaration scoping gave it; only names from outside can change meaning. |
| `HoistProof.TreeMeans` | c.c:1376-1472 | After hoisting, all uses of a tree are those of C's scoping, up to capture of outside names. |
| `HoistFunction.HoistingKeepsBindings` | c.c:1352-1500 | Hoisted names are pairwise distinct and no parameter's, one per declaration; every use keeps its declaration exactly when no name used from outside is declared anywhere in the body. |
| `HoistFunction.HoistedNames` | c.c:1403-1421 | Every local's new name, told from the declarations alone: the first declaration of a name that is no parameter's keeps it. |
| `HoistFunction.GlobalIsCaptured` | c.c:1418-1421 | In `{ g; { int g; } }` the use of the global refers to the local after hoisting. |
| `HoistFunction.HoistingMarks` | c.c:1438-1460 | Exactly the variables declared automatic or whose address is taken are marked, and no register variable is among them; an outside name that an earlier declaration has taken counts as that local. |
| `StackBalance.AllocaRuns` | c.c:3639-3645 | A constant `alloca` claims an aligned area directly below everything allocated before, unless it does not fit. |
| `StackBalance.AllocaRestRuns` | c.c:3646-3661 | So does a dynamic one, for any size on the operand stack. |
| `StackBalance.RoundedCovers` | c.c:3652-3655 | A dynamic size is covered by its rounding exactly when that does not wrap around. |
| `StackBalance.OpenRuns` | c.c:3330-3347 | Opening the argument area of a variadic call claims an aligned area directly below, remembers it and stores the count at its start. |
| `StackBalance.CloseRuns` | c.c:3373-3382 | Closing the area sets `sp$` back to what it was when it was opened, modulo 2^32. |
| `StackProof.ApplyVarRuns` | c.c:3328-3383 | A variadic call, direct or indirect, with calls and allocations nested in its arguments and its function expression, leaves `sp$` where its fixed arguments left it. |
| `StackProof.ExpRuns` | c.c:3274-3383 | Every completed expression leaves one value, keeps the values below it and all other temporaries, and never raises `sp$`. |
| `StackProof.StmRuns` | c.c:3537-3553 | Every completed statement leaves the operand stack as it was; a return leaves `sp$` as at entry. |
| `StackProof.FunctionBalanced` | c.c:2207-2269 | Every completed call of every function of every program leaves `sp$` at its entry value, on every return path, and never goes above it. |
| `StackProof.StatementStaysBelow` | c.c:3634-3664 | Every area a completed statement claims, returns and called functions included, is aligned and inside [0, `bp$`) or below the stack pointer it began with; at every moment the areas in use are apart and the callers' stay in use; unless an area does not fit. |
| `StackProof.CallAreas` | c.c:2207-2269 | So for a completed call: all its areas are aligned and inside [0, `sp$` at entry), apart at every moment, the callers' stay in use throughout, and at its return none of its own is left. |
| `StackAreas.SoundThroughout` | c.c:3634-3664 | At every moment of a log in which each claim lies below the stack pointer, the areas in use are stacked and those above are kept. |
| `StackProof.VariadicStores` | c.c:3330-3372 | A variadic call opens an area of exactly 16 bytes for the count and for each remaining argument, and stores the count and every argument at the start of its own 16 bytes, in turn, and nothing else there. |
| `StackProof.CallStores` | c.c:3340-3370 | Everything stored so in a completed call, called functions included, lies inside an area in use that begins at the address stored to. |
| `StackLasting.StaysInUse` | c.c:3634-3664 | What is in use above the stack pointer stays in use while the stack pointer is not set higher. |
| `StackProof.ExpAreasLast` | c.c:3328-3383 | Of the non-empty areas that an expression claims itself, exactly those are in use after it whose `alloca` is neither among the remaining arguments of a variadic call nor in its function expression. |
| `StackProof.AreasLast` | c.c:3328-3383 | So it is after every statement that has not returned, loops and sequences included. |
| `StackProof.VariadicArgumentReleased` | c.c:3373-3382 | An `alloca` among variadic arguments is released at the end of the call. |
| `Layout.MeasureType` | c.c:614-711 | Size and alignment by accumulation equal the specification, error exits and the nesting limit included. |
| `Layout.Measure` | c.c:614-711 | Every measured type has a power-of-two alignment up to 16 that divides its positive size. |
| `Layout.LevelLower` | c.c:614-618 | A measurable type measures the same at every lesser nesting level. |
| `Layout.ScalarSizes` | c.c:626-650 | The sizes and alignments of the types without members. |
| `Layout.ArraySize` | c.c:692-702 | An array of positive length is as large as all its elements, and aligned like them. |
| `Layout.ByTag` | c.c:651-677 | A structure or union given by its tag alone is laid out as declared, and refused when it is not. |
| `Layout.StructSize` | c.c:670-689 | A structure can be measured when it has members and all can be; its alignment is the largest of theirs, its size the first multiple of it past the last member. |
| `Layout.UnionSize` | c.c:651-669 | Of a union the size is the first multiple of the alignment past the largest member. |
| `Layout.OffsetFirst` | c.c:681-683 | The first member is at the start, every other at the first aligned place past the one before. |
| `Layout.MembersInside` | c.c:670-689 | Every member of a structure is aligned, inside it, and clear of all others; member alignments divide the structure's. |
| `Layout.OffsetLeast` | c.c:681-683 | No smaller offset past the members before would be aligned. |
| `Layout.UnionInside` | c.c:651-669 | A union has room and alignment for each member. |
| `Layout.MeasureOffset` | c.c:713-759 | Searching by accumulation equals the specification. |
| `Layout.OffsetAgrees` | c.c:713-759 | `measure_offset` gives a member the place `measure_type` left for it, and fails exactly on names no member has. |
| `Bin.LeValue` | l.c:1337-1369 | The bytes written spell the number modulo 256 to their count. |
| `Bin.LeReadsBack` | l.c:1332-1384 | Reading the stored bytes of any integer as its type gives the integer back. |
| `Bin.Cbuf.BinAlign` | l.c:1323-1329 | Pads with zeros to the next multiple and no further. |
| `Bin.Cbuf.BinInt` | l.c:1344-1351 | Appends the four little-endian bytes after padding. |
| `Bin.Cbuf.BinLLong` | l.c:1353-1364 | Appends the eight little-endian bytes after padding. |
| `InitData.CompatibleKeepsValue` | c.c:308-318 | Exactly those integer constants are accepted that can be read back from what is stored. |
| `InitData.CountIff` | c.c:1141-1173 | An array takes as many items as it has elements or fewer, a structure one for each member. |
| `InitData.TypedIff` | c.c:1129-1254 | Initializers are given with integer constants that are values of their types. |
| `InitData.TouchesInside` | c.c:1129-1254 | No leaf of an accepted initializer is outside the place it initializes. |
| `InitData.FillStep` | c.c:1141-1173 | One more item leaves the items before it in place. |
| `InitData.Initialize` | c.c:1129-1254 | Succeeds exactly for accepted initializers; then every leaf's bytes are at its measured offset and no other byte has changed. |
| `InitData.InitArray` | c.c:1141-1152 | So for the items of an array, refusing exactly those that do not fit. |
| `InitData.InitStruct` | c.c:1153-1173 | So for the members of a structure, refusing lists too short or too long. |
| `InitData.InitUnion` | c.c:1169-1172 | A braced union initializer always fails. |
| `InitData.UnionNeverAccepted` | c.c:1169-1172 | No braced list is accepted for a union. |
| `InitData.LiteralIff` | c.c:1174-1187 | Which literals fit an array, by the number of their characters and the size of its elements, and what is stored of them. |
| `InitData.LeafSize` | c.c:1188-1231 | Every other initializer is as large as what it initializes; vectors are given whole, pointers only as the `int` 0. |
| `InitData.LiteralBytes` | c.c:1175-1187 | A string literal fills an array with or without its final zero, never beyond it. |
| `InitData.NewBulk` | c.c:1283-1297 | A new variable is zero except for the leaves of its initializer. |
| `SymbolTable.ProbeEnds` | l.c:1427-1429 | Probing meets a free slot before it has gone round the table. |
| `SymbolTable.NotListed` | l.c:1427-1429 | A free slot with no match before it means the name is new. |
| `SymbolTable.Enter` | l.c:1444-1446 | A new entry at the end of its probe path keeps every entry reachable. |
| `SymbolTable.Lookup` | l.c:1427-1429 | Ends at the entry of the name, or at the free slot of a name not in the table. |
| `SymbolTable.Rehash` | l.c:1430-1441 | The larger table holds the same entries, each reachable. |
| `SymbolTable.Symbols.Intern` | l.c:1417-1448 | The list of names grows by exactly the new name or not at all, and the symbol returned names it. |
| `SymbolTable.Symbols.SymName` | l.c:1409-1415 | The name of a symbol is the one it was interned for. |
| `SymbolTable.SameSymbolIffSameName` | l.c:1417-1448 | Over any calls before, between and after, two symbols are equal exactly when the names are, and keep naming them. |
| `HexFloat.ReadsBack` | l.c:331-472 | Reading the printed text of any 64- or 32-bit pattern gives the pattern back, or the canonical NaN of its sign. |
| `HexFloat.NumberIs` | l.c:331-357 | A pattern has a sign, 11 or 8 bits of exponent with bias 1023 or 127, and 52 or 23 bits of fraction. |
| `HexFloat.PowersAre` | l.c:331-357 | Powers of two double from 1, for negative exponents too. |
| `HexFloat.DigitsAre` | l.c:331-400 | The digits printed are 0 to 9 and a to f; those read are these and A to F. |
| `HexFloat.ShapeIff` | l.c:372-396 | A number is 0x, one digit 0 or 1, a point, 13 or 6 hexadecimal digits, p, a sign and any number of decimal digits. |
| `HexFloat.RefusedIff` | l.c:372-402 | All ones are returned exactly for other texts, and for exponents out of range after a leading 1. |
| `HexFloat.ReadsExactly` | l.c:372-400 | Any other text is read as exactly the real number it denotes if and only if no bit is cut off and it is normal, or zero, or has the exponent of the subnormal numbers. |
| `HexFloat.Misread` | l.c:397-400 | A text with a leading 0 that is read as another number. |
| `HexFloat.TextIsExact` | l.c:331-428 | The printed text of a finite number denotes exactly that real number. |
| `HexFloat.TextFits` | l.c:331-403 | The text and its terminator fit in 25 characters for a double and 17 for a float, and need them. |
| `HexFloat.ToHex` | l.c:331-357 | The buffer written backwards and reversed in place holds that text. |
| `HexFloat.FromHex` | l.c:360-400 | The reader accepts exactly the shape of a number and computes its pattern, -1 on anything else. |
| `HexFloat.WriteNumber` | l.c:341-354 | Exponent, mantissa and lead written backwards into the buffer and reversed in place are the number's text, in either format. |
| `HexFloat.NumberReads` | l.c:432-472 | A number of either format is read field by field. |
| `ExprSyntax.Reach` | p.c:3252-3286 | At every level the parser reaches the end of any fitting tree's text with that tree and goes on from there. |
| `ExprParser.ParsedIsText` | p.c:3252-3330 | Whatever is parsed is the text of a tree that fits precedence and associativity. |
| `ExprParser.AcceptsIff` | p.c:3233-3330 | A whole text is accepted as a tree exactly when it is that tree's text, calls and casts included, with or without redundant parentheses. |
| `ExprParser.ParseUndoesText` | p.c:3233-3330 | Writing a tree with the least parentheses and parsing it gives the tree back. |
| `ExprGrammar.AcceptsDerived` | p.c:3207-3330 | A whole text is accepted as a tree exactly when C's productions derive it, written that way; the ten tiers of operators are listed in C's order. |
| `ExprGrammar.OneTier` | p.c:3235-3286 | Every binary operator is in exactly one of the ten tiers. |
| `ExprGrammar.Grouping` | p.c:3235-3286 | Of two operators in a row that of the earlier tier takes the middle operand, in one tier the left one. |
| `ExprGrammar.WrittenIff` | p.c:3233-3330 | Every tree of operators without marks of parentheses, and no other, is what some text is parsed to. |
| `ExprGrammar.LeastIsShortest` | p.c:3233-3330 | No text that parses to a tree is shorter than that with the least parentheses. |
| `ExprParser.Parser.ParseBinary` | p.c:3252-3286 | The loop at each of the ten levels is the parse of that level. |
| `ExprParser.Parser.ParseConditional` | p.c:3288-3300 | `?:` groups to the right, with a full expression between its signs. |
| `ExprParser.Parser.ParseAssignment` | p.c:3302-3318 | Assignment groups to the right. |
| `ExprParser.Parser.ParseExpr` | p.c:3320-3330 | The comma groups to the left. |
| `ExprParser.Parser.ParseUnary` | p.c:2879-2895 | Prefix operators and casts apply to what follows them. |
| `ExprParser.Parser.ParsePostfix` | p.c:2835-2877 | Subscripts, calls, members and increments apply to what precedes them. |
| `ExprParser.Parser.ParseArgs` | p.c:2853-2862 | The arguments of a call, assignment expressions with a comma after the last allowed, in place. |
| `Declarators.InvertRaw` | p.c:3609-3646 | Inverting turns the declarator of a type back into the type. |
| `Declarators.DeclarationReads` | p.c:3519-3656 | Parsing the C text of a named type gives back the name and the type, parameters included. |
| `Declarators.ReadableIff` | p.c:3519-3656 | A well-formed type, named or not, is read back exactly when it is not a nameless function with parameters. |
| `Declarators.ParsedReadsBack` | p.c:3519-3656 | A declaration that was parsed, printed and parsed again is the same, unless a parameter list in it ends in void or something in it is a nameless function with parameters. |
| `Declarators.TypeOkIff` | p.c:3563-3583 | The well-formed types are those with `...` only last and unnamed and nothing of that kind in them. |
| `Declarators.Parser.ParseUnary` | p.c:3590-3607 | Stars and qualifiers in place. |
| `Declarators.Parser.ParsePostfix` | p.c:3549-3588 | Arrays and parameter lists in place. |
| `Declarators.Parser.ParseParams` | p.c:3563-3583 | The parameter list, with its ellipsis and trailing comma, in place. |
| `Declarators.Parser.ParsePrimary` | p.c:3519-3547 | Names, missing names and nested declarators in place. |
| `SudokuUpdate.Choose` | examples/sudoku.c:111-143 | Forward, each row is forbidden once more per constraint it shares, every count moves with its free choices, and the minimum returned is that of the counts lowered; row counts are signed bytes. |
| `SudokuUpdate.Revert` | examples/sudoku.c:128-140 | In reverse, all of this moves back. |
| `SudokuUpdate.UndoRestores` | examples/sudoku.c:111-143 | Reverting an update restores both byte arrays exactly, from any state, whatever wraps around. |
| `SudokuSearch.ChooseConsistent` | examples/sudoku.c:111-143 | Choosing keeps the arrays exactly those of the rows chosen. |
| `SudokuSearch.CountMeaning` | examples/sudoku.c:151-152 | A count is the number of free choices, plus 128 for a constraint used once, or any odd number of times. |
| `SudokuPaths.WeightIsUse` | examples/sudoku.c:149 | Without conflicts a row's count is the number of its constraints in use, at most 4. |
| `SudokuPaths.CountsFit` | examples/sudoku.c:149 | Whatever hints and choices were made, no row's count exceeds 36, so none wraps around. |
| `SudokuPaths.SolvableDisjoint` | examples/sudoku.c:157-167 | Hints that use a constraint twice have no solution. |
| `SudokuPaths.UsedCount` | examples/sudoku.c:169 | With fewer than 81 rows chosen some constraint is unused, with 81 none is. |
| `SudokuPaths.SkipForbidden` | examples/sudoku.c:187-189 | Skipping a forbidden choice loses no solution. |
| `SudokuPaths.PassFull` | examples/sudoku.c:197-204 | At a full path exactly one more solution is passed, for the first time: its own rows. |
| `SudokuSolver.TopConstraint` | examples/sudoku.c:171-180 | The constraint chosen has at most one choice, or the fewest of all. |
| `SudokuSolver.StuckIff` | examples/sudoku.c:169-183 | The first scan goes back from the first level exactly when the first constraint with at most one choice has none. |
| `SudokuSolver.ZeroCountSame` | examples/sudoku.c:181-182 | A constraint without choices ends the path: going back there loses no solution. |
| `SudokuSolver.Advance` | examples/sudoku.c:187-195 | Going on to the next free choice, or back without one, passes the same solutions and leaves less to search. |
| `SudokuSolver.Resume` | examples/sudoku.c:184-195 | So does going back and trying again. |
| `SudokuSolver.Round` | examples/sudoku.c:169-196 | So does every round of the inner loop, on the same arrays; it goes outside the arrays exactly in the first round from hints that are stuck. |
| `SudokuSolver.Search` | examples/sudoku.c:169-196 | The inner loop ends at a complete path or behind the first level, or outside the arrays for hints that are stuck. |
| `SudokuSolver.Fill` | examples/sudoku.c:199-200 | The text shows the digit of every choice and of every hint. |
| `SudokuSolver.Solve` | examples/sudoku.c:146-207 | For every text: the solver reads outside its arrays exactly when the hints are stuck; else it ends, adds only choices that conflict with nothing, prints every solution once and nothing else if the hints do not conflict, and a full text as it is. |
| `SudokuGrid.GenMat` | examples/sudoku.c:86-107 | The generated tables are the matrix of the Sudoku rules, each the transpose of the other. |
| `SudokuGrid.MatrixIncidence` | examples/sudoku.c:79-107 | In that matrix every constraint has nine different choices and every choice four different constraints. |
| `SudokuGrid.InvolvedIff` | examples/sudoku.c:92-105 | A choice is among a constraint's choices exactly when the constraint is among its constraints. |
| `SudokuGrid.SolutionIsGrid` | examples/sudoku.c:199-201 | Every solution, printed, is a filled grid without repetition in any row, column or box, with the given digits. |
| `SudokuGrid.GridIsSolution` | examples/sudoku.c:199-201 | Every such grid is a solution. |
| `SudokuGrid.ClashIff` | examples/sudoku.c:79-107 | Hints conflict in the matrix exactly when two equal given digits share a row, column or box. |
| `SudokuGrid.CompleteFilled` | examples/sudoku.c:199-201 | Every line printed is a full grid that keeps the given digits and repeats a digit in a unit only where it was given twice. |
| `SudokuGrid.SolvableCanStart` | examples/sudoku.c:146-167 | Every puzzle with a solution has no clash and can be started with. |
| `SudokuGrid.SolveGrid` | examples/sudoku.c:209-220 | For every text that can be started with: the lines printed include every valid grid keeping its digits; without a clash they are exactly those, each once; a full text is printed as it is. |
| `SudokuCases.BlockedAtOnce` | examples/sudoku.c:169-187 | Texts beginning with `.234567891` make the solver read before its arrays. |
| `SudokuCases.BlockedLater` | examples/sudoku.c:171-183 | `12345678.`, 63 dots and `.34567892`: a blocked puzzle that the solver can start with and that has no solution. |
| `SudokuCases.OnesClash` | examples/sudoku.c:157-203 | A full text that clashes. |
| `ModArith.EuclidStep` | examples/pi.c:26-34 | One step of the loop keeps both congruences and bounds every intermediate value by the modulus. |
| `ModArith.InverseUnique` | examples/pi.c:18-39 | At most one number below the modulus is inverse to another. |
| `ModArith.GcdDivisors` | examples/pi.c:18-39 | The common divisor used has exactly the common divisors of both numbers as its divisors. |
| `ModArith.InverseExistsIff` | examples/pi.c:18-39 | A number has an inverse exactly when it is prime to the modulus. |
| `ModArith.InvMod` | examples/pi.c:18-39 | Returns the unique inverse in range of a number prime to the modulus. |
| `ModArith.PowRound` | examples/pi.c:47-54 | One round with remainders keeps the value modulo `m`. |
| `ModArith.PowMod` | examples/pi.c:41-56 | Returns the power modulo `m`. |

## Left out

- Lexing, macros, conditional compilation, workspaces, error messages, modules, option handling and file search: input and output around global state.
- The linker, the text and binary writers, and the C library in C: w.c and the library sources are not part of this model.
- Floating-point arithmetic, SIMD and inline assembly: they rest on the host. Bit patterns of floating-point numbers are modelled.
- Bit operations of the host code are written as arithmetic modulo powers of two, in-place exchange of tree nodes as new trees; aliasing between nodes is not captured.
- `ControlFlow.JumpsHaveTargets`: error exits of the compiler are the predicate `Accepts`, which `ControlAccepted` describes; what is printed on an error is not modelled.
- `ConstFoldProof.FoldKeepsCode`: requires, at every node evaluated, the agreement that `CondFoldExact`, `ShiftFoldExact` and `QuotientFoldExact` show to be needed: counts below the width, no quotient of the least number of a signed type by -1 (for 64 bits the host overflows, in the remainder too), and conditionals that keep their type and are not narrowed to 0.
- `Peephole.Buffer.Optimize`: keeps the behaviour of runs that neither trap nor load from an address that wrapped around; the other rules' traps are covered by the exactness lemmas.
- `Layout.Measure`: sizes are unbounded; an array whose size exceeds the host's `size_t` is not modelled.
- `InitData.Initialize`: members of a structure have different names, where the source takes the first of a name; address initializers, casts and type-tagged lists, and conversions between integers and floating point are not part of this model; enumerations are laid out and initialized as `int`.
- `SymbolTable.Symbols.Intern`: allocation never fails, and hashes are taken on 64-bit words.
- `HexFloat.FromHex`: the exponent digits are read as an unbounded number, where the source's `int` would overflow on very long texts.
- `ExprParser.AcceptsIff`: a number and the type of a cast are one token each; string literals one after the other, `sizeof` and the other intrinsics, and displays after a type are not part of this model.
- `Declarators.DeclarationReads`: a base type and an array size are one token each.
- `HoistFunction.HoistingMarks`: assembly operands are left out.
- `DeflateFormat.CodesSound`: the tokens may reach before the start of the output, as in the source; `DeflateStrict` tells the streams that do.
- `ConstFoldProof.CompileInOrder`: calls, memory accesses and assignments to memory are operands of any effect, whose own code is not described; pointers and the comma are not part of this model.
- `StackProof.FunctionBalanced`: functions outside the program are taken to keep `sp$`, and everything that does not touch `sp$` is an operator of unknown result; a run that has not ended is not described.
- `SudokuSolver.Solve`: says nothing of what follows a read before the arrays, and for hints that clash not how many lines are printed; the level arrays are sequences.
- `utf8` and `unutf8`, the other example programs, and the archive bytes: they would add only easy members.
