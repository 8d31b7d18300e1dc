# SyBlang interpreter in Dafny

SyBlang is a Brainfuck-like language whose eight instructions are words. Three are written in Latin script: `Sleepy`, `Board`, `SyB`. Four are Japanese: `とう`, `神ではない`, `ありが`, `おわり`. The last is `#5585172`. Everything else in a source file is ignored text. The interpreter `SyBlang.cpp` works in four stages, and this project models each of them and proves its properties.

1. **Codepoint skipping.** `utf8_next_char_size` classifies a UTF-8 lead byte (module `Utf8`).
2. **Tokenizing.** The instruction list is sorted by decreasing byte length (`sortInstructions`). The source bytes are then scanned greedily: at each offset the first instruction found is emitted and skipped; where none is found, one codepoint is skipped (modules `Instructions` and `Tokenizer`).
3. **Jump table.** One pass with a stack pairs each `ありが` (loop open) with its `おわり` (loop close). The pass fails on an unmatched close or an unclosed open, and the two errors are returned as a `Result` (module `JumpTable`).
4. **Execution.** The loop in `main` runs the tokens on a 30000-cell tape (module `Machine`):
   - `とう` and `神ではない` increment and decrement the current cell with `& 0xFF`;
   - `Sleepy` and `Board` move the pointer with wrap-around;
   - `SyB` writes the cell;
   - `#5585172` reads a byte, or 0 at end of input;
   - `ありが` and `おわり` jump to their partner token, which is executed next.

Module `Interpreter` chains the stages. Module `Scenarios` proves what three small programs write when their source texts are interpreted.

Tokens are kept as byte strings, as in the source. `OpcodeOf` is the execution loop's chain of text comparisons, and `Decode` applies it at every position. The step relation `Step`/`Run` is stated over the decoded program.

The imperative stages are methods proved against specification functions:
- `Tokenize` and `FindInstruction` are proved against `Scan` and `FirstMatch`;
- `BuildJumpTable` is proved against `Depth`, `Balanced` and `JumpTableOk`;
- `Execute`, which keeps the tape in an `array<int>` updated in place, is proved against `Run`.

Input and output are byte sequences: input is consumed from the front and output is appended to. A run is bounded by a fuel argument.

## Model

| member | source | states |
|---|---|---|
| Utf8.NextCharSize | SyBlang.cpp:12-22 | the mask comparisons give 1 for 0xxxxxxx, 2 for 110xxxxx, 3 for 1110xxxx, 4 for 11110xxx and 1 for any other lead byte; this equals the range-based classification `LeadByteLength` and is always in 1..4 |
| Utf8.LeadByteOfEncoding | SyBlang.cpp:14-21 | for every Unicode scalar value, the classifier reads the length of its UTF-8 encoding (section 3 of RFC 3629) off the lead byte |
| Instructions.OpcodeOf | SyBlang.cpp:180-210 | the dispatch chain gives the loop-open instruction to ありが and to no other text, and the loop-close instruction to おわり and to no other text |
| Instructions.OpcodeOfTable | SyBlang.cpp:176-210 | the dispatch chain recognises exactly the eight texts of the instruction list and gives each a different instruction |
| Instructions.SortByLength | SyBlang.cpp:102-109 | the sorted list is a permutation (same multiset) of the input, ordered by non-increasing byte length |
| Instructions.InsertByLength | SyBlang.cpp:104-107 | inserting into a length-sorted list keeps it sorted and adds exactly `x` to the elements |
| Instructions.SortedTableOrdered | SyBlang.cpp:137-148 | the list the tokenizer is given holds the eight declared instructions (same multiset), ordered by non-increasing byte length |
| Instructions.InsertByLengthPermutes | SyBlang.cpp:104-107 | insertion adds one occurrence of `x` to the multiset of instructions |
| Instructions.TablePrefixFree | SyBlang.cpp:138-147 | no instruction of the fixed list is a prefix of a different one |
| Tokenizer.FirstMatch | SyBlang.cpp:36-52 | a found index is an index of the table whose instruction occurs at the offset |
| Tokenizer.FirstMatchIsLeast | SyBlang.cpp:36-52 | the instruction found at an offset is the first one of the table that occurs there, and nothing is found exactly when none occurs |
| Tokenizer.FindInstruction | SyBlang.cpp:36-52 | the inner loop tries instructions in table order and returns the first one that occurs at `i` (bounds check and compare) |
| Tokenizer.Tokenize | SyBlang.cpp:27-67 | the loop emits exactly the scan `Scan(code, insts, 0)`, and every token is an element of `insts` |
| Tokenizer.Scan | SyBlang.cpp:27-67 | every emitted token covers at least one byte, so there are no more tokens than bytes from the starting offset |
| Tokenizer.ScanEmits | SyBlang.cpp:38-50 | where an instruction is found, the scan emits it and resumes right after it |
| Tokenizer.ScanMatched | SyBlang.cpp:41-50 | the same step as it extends the tokens already pushed |
| Tokenizer.ScanSkipped | SyBlang.cpp:54-64 | where no instruction is found, nothing is emitted and the scan resumes `utf8_next_char_size` bytes later |
| Tokenizer.ScanInTable | SyBlang.cpp:33-66 | every emitted token is an instruction of the table |
| Tokenizer.MatchesAgree | SyBlang.cpp:38-39 | two instructions that occur at the same offset agree on their common length, so the shorter is a prefix of the longer |
| Tokenizer.LongestMatchWins | SyBlang.cpp:102-109 | with the table sorted by length, the instruction emitted is at least as long as any found at that offset, so a longer instruction wins over a strict prefix of it |
| Tokenizer.PrefixFreeMatchIsUnique | SyBlang.cpp:36-52 | in a prefix-free table, the instruction found at an offset is the only text found there |
| Tokenizer.SameFirstMatch | SyBlang.cpp:36-52 | two prefix-free tables with the same instructions, in any order, find the same text at every offset |
| Tokenizer.ScanBothEmit | SyBlang.cpp:38-50 | two tables that find the same instruction at an offset, and scan alike after it, scan alike from that offset |
| Tokenizer.MatchesHead | SyBlang.cpp:38-39 | where the bytes from an offset begin with an instruction, the comparison there succeeds and the rest follows it |
| Tokenizer.ConcatSpells | SyBlang.cpp:38-39 | bytes that are the concatenation of some instructions match those instructions one after another |
| Tokenizer.ScanHead | SyBlang.cpp:36-50 | an instruction of a prefix-free table that occurs at an offset is emitted there, and the scan resumes after it |
| Tokenizer.ScanOfInstructions | SyBlang.cpp:27-67 | a text spelled out of instructions of a prefix-free table tokenizes back to exactly those instructions |
| Tokenizer.ScanIgnoresTableOrder | SyBlang.cpp:27-67 | a prefix-free table tokenizes every text the same way in any order |
| Tokenizer.SortedScan | SyBlang.cpp:148 | sorting a prefix-free list (such as the fixed one) leaves it non-empty-instruction and changes no tokenization, so the tie order of the unstable sort does not matter |
| Tokenizer.PrefixFreeShared | SyBlang.cpp:138-148 | a reordering of a prefix-free list is prefix-free |
| JumpTable.BuildJumpTable | SyBlang.cpp:72-97 | success exactly when the loop tokens are balanced; `UnmatchedLoopClose` exactly when some prefix closes more loops than it opens; `UnmatchedLoopOpen` exactly when no prefix underflows but loops remain open; on success the table pairs the loop tokens (`JumpTableOk`) |
| JumpTable.PassStep | SyBlang.cpp:77-90 | one iteration fails exactly on an おわり with an empty stack, in which case the tokens underflow, and otherwise keeps the pass invariant |
| JumpTable.PushKeepsInvariant | SyBlang.cpp:78-79 | pushing an ありが position keeps the stack and table invariant |
| JumpTable.PushKeepsStack | SyBlang.cpp:78-79 | after the push the stack still holds the open ありが positions, innermost on top |
| JumpTable.PopKeepsInvariant | SyBlang.cpp:81-89 | popping the innermost ありが and recording both directions keeps the invariant |
| JumpTable.PopKeepsStack | SyBlang.cpp:85-86 | the popped ありが is followed by balanced tokens up to the おわり |
| JumpTable.PopKeepsKeys | SyBlang.cpp:87-88 | after recording the pair, the keys are exactly the loop positions read so far that are not open |
| JumpTable.PopKeepsPaired | SyBlang.cpp:87-88 | the recorded pair is symmetric and joins an ありが to a later おわり |
| JumpTable.PairedGrows | SyBlang.cpp:77-90 | the pairing facts about positions read so far survive reading one more token |
| JumpTable.OtherKeepsInvariant | SyBlang.cpp:77-90 | a token that is not a loop token changes nothing |
| JumpTable.UnderflowFails | SyBlang.cpp:82-84 | an おわり read with an empty stack makes a prefix underflow, so the tokens are not balanced |
| JumpTable.PassOutcome | SyBlang.cpp:92-96 | after the pass the stack is non-empty exactly when loops remain open, and an empty stack means the table pairs the loop tokens |
| JumpTable.CloseIsUnique | SyBlang.cpp:85-88 | a balanced stretch after an ありが can end at only one おわり |
| JumpTable.OpenPartner | SyBlang.cpp:87-88 | an ありが's partner is a later おわり whose partner is the ありが |
| JumpTable.PartnerIsUnique | SyBlang.cpp:72-97 | two tables that pair the loop tokens give every position the same partner |
| JumpTable.JumpTableIsUnique | SyBlang.cpp:72-97 | the tokens determine the jump table |
| JumpTable.LoneCloseUnderflows | SyBlang.cpp:82-84 | a program that is a single おわり fails as an unmatched close |
| JumpTable.LoneOpenUnclosed | SyBlang.cpp:92-94 | a program that is a single ありが fails as an unclosed open |
| Machine.Decode | SyBlang.cpp:176-178 | the decoded program has one entry per token |
| Machine.DecodeAt | SyBlang.cpp:178-210 | the entry at each position is what the dispatch chain makes of that token |
| Machine.Init | SyBlang.cpp:172-174 | the machine starts at token 0, with the pointer on cell 0 of the 30000-cell tape, the whole input unread and nothing written |
| Machine.InitValid | SyBlang.cpp:172-174 | the start state is well-formed for every program, and every one of its 30000 cells is zero (so each holds a byte) |
| Machine.LowByte | SyBlang.cpp:193 | the byte written is the cell's low byte, and equals the cell when it holds a byte |
| Machine.CellUp | SyBlang.cpp:180-182 | とう gives a byte: c+1 below 255, and 255 wraps to 0 |
| Machine.CellDown | SyBlang.cpp:183-185 | 神ではない gives a byte: c-1 above 0, and 0 wraps to 255 |
| Machine.PointerUp | SyBlang.cpp:186-188 | Sleepy stays on the tape: p+1, with 29999 wrapping to 0 |
| Machine.PointerDown | SyBlang.cpp:189-191 | Board stays on the tape: p-1, with 0 wrapping to 29999 |
| Machine.CellUpDownInverse | SyBlang.cpp:180-185 | とう and 神ではない undo each other on every byte |
| Machine.PointerUpDownInverse | SyBlang.cpp:186-191 | Sleepy and Board undo each other at every position |
| Machine.PairedProgram | SyBlang.cpp:199-209 | a jump table that pairs the tokens pairs the decoded loop instructions |
| Machine.PairedInRange | SyBlang.cpp:201-207 | then every loop instruction has an entry, and the entry points into the program |
| Machine.Step | SyBlang.cpp:176-212 | a step keeps the instruction pointer in [0, number of tokens] and the pointer on the tape, only appends to the output, and consumes at most the first input byte |
| Machine.StepFrame | SyBlang.cpp:178-212 | a step changes only what its instruction names: only the current cell is written, and only by とう, 神ではない or #5585172; only Sleepy and Board move the pointer; only SyB writes (the current cell's byte); only #5585172 consumes input; only loop instructions move `ip` other than by one |
| Machine.StepReads | SyBlang.cpp:195-198 | #5585172 stores the next input byte, or 0 at the end of input |
| Machine.StepKeepsBytes | SyBlang.cpp:180-198 | every step keeps every cell in 0..255 |
| Machine.SkipLoop | SyBlang.cpp:199-204 | ありが on a zero cell jumps to its おわり, which falls through, so execution continues after the loop with nothing else changed |
| Machine.RepeatLoop | SyBlang.cpp:205-210 | おわり on a non-zero cell jumps back to its ありが, which falls through into the loop body again |
| Machine.Run | SyBlang.cpp:176-213 | the loop keeps the machine state well-formed at every step |
| Machine.RunMonotone | SyBlang.cpp:192-198 | over a run, output is only appended to and input only consumed from the front |
| Machine.RunUnfinishedUsedFuel | SyBlang.cpp:176 | a run that has not reached the end of the tokens used all its fuel: no shorter run reached the end |
| Machine.RunOutputBound | SyBlang.cpp:192-194 | a run of `fuel` steps writes at most `fuel` bytes |
| Machine.RunKeepsBytes | SyBlang.cpp:180-198 | every cell still holds a byte after any run from a tape of bytes |
| Machine.RunHaltedStable | SyBlang.cpp:176 | once the end of the tokens is reached, more fuel changes nothing |
| Machine.RunAdditive | SyBlang.cpp:176-213 | `n` steps followed by `m` steps are `n + m` steps |
| Machine.RunSnoc | SyBlang.cpp:176-213 | one more unit of fuel adds one step at the end of an unfinished run |
| Machine.Execute | SyBlang.cpp:172-213 | the loop over the array tape writes exactly the output of `Run` on a fresh machine, and reports whether it reached the end of the tokens |
| Machine.ExecuteStep | SyBlang.cpp:178-212 | one pass of the loop body on the array tape is `Step`: a taken jump leaves with the partner position and skips `ip++` |
| Interpreter.TableHasNoEmptyInstruction | SyBlang.cpp:138-147 | no instruction of the list is empty |
| Interpreter.Tokens | SyBlang.cpp:158 | every token of a source text is an instruction of the list |
| Interpreter.TokensOfInstructions | SyBlang.cpp:137-148 | a source text written only in instructions tokenizes back to exactly those instructions, whatever the sort's tie order |
| Interpreter.TokensAreInstructions | SyBlang.cpp:176-210 | no token reaches the fall-through case of the dispatch chain |
| Interpreter.Behaviour | SyBlang.cpp:172-213 | a bounded run writes at most one byte per step |
| Interpreter.Interpret | SyBlang.cpp:138-213 | the declared list is sorted and the code tokenized, then: an unmatched おわり and an unclosed ありが are reported as the two errors, exactly when they occur; otherwise a jump table for the tokens exists, and the result is the run of the tokens with it, whichever such table is taken |
| Scenarios.NoLoopsEmptyTable | SyBlang.cpp:72-97 | a token list without loop tokens has the empty jump table |
| Scenarios.NoLoopsDepth | SyBlang.cpp:77-90 | over a token list without loop tokens the nesting depth stays 0 |
| Scenarios.NoLoopsBalanced | SyBlang.cpp:77-94 | a token list without loop tokens is balanced, so the jump-table pass cannot fail on it |
| Scenarios.ThreeUpTokenizes | SyBlang.cpp:27-67 | the text とうとうとうSyB yields the tokens とう, とう, とう, SyB |
| Scenarios.ThreeUpWritesThree | SyBlang.cpp:180-193 | the token list of とうとうとうSyB writes the byte 3 and ends after 4 steps |
| Scenarios.InterpretThreeUp | SyBlang.cpp:137-213 | interpreting the text とうとうとうSyB with no input succeeds, writes the byte 3 and ends |
| Scenarios.ReadTokenizes | SyBlang.cpp:27-67 | the text #5585172SyB yields the tokens #5585172, SyB |
| Scenarios.ReadAtEndWritesZero | SyBlang.cpp:195-198 | the token list of #5585172SyB with no input writes the byte 0 and ends |
| Scenarios.InterpretReadAtEnd | SyBlang.cpp:137-213 | interpreting the text #5585172SyB with no input succeeds, writes the byte 0 and ends |
| Scenarios.CountdownJumpTable | SyBlang.cpp:77-89 | the countdown program's loop tokens are paired 3 with 5 |
| Scenarios.CountdownTokenizes | SyBlang.cpp:27-67 | the text とうとうとうありが神ではないおわりSyB yields its seven instructions as tokens |
| Scenarios.CountdownBalanced | SyBlang.cpp:77-94 | the countdown's loop tokens are balanced |
| Scenarios.CountdownWritesZero | SyBlang.cpp:176-213 | the token list of とうとうとうありが神ではないおわりSyB writes the byte 0 and ends after 13 steps |
| Scenarios.InterpretCountdown | SyBlang.cpp:137-213 | interpreting the text とうとうとうありが神ではないおわりSyB with no input succeeds, writes the byte 0 and ends |
| Scenarios.CountdownRound | SyBlang.cpp:199-210 | each pass through the loop body decrements the cell, then returns to ありが, or leaves the loop when the cell reaches zero |

## Left out

- The Windows console code-page calls (SyBlang.cpp:117-122) have no behaviour to model.
- The argument check, opening the file and reading it whole (SyBlang.cpp:124-155) are I/O. The model starts from the file's bytes.
- The `_DEBUG` tracing (SyBlang.cpp:43-46, 57-62, 161-167) only prints.
- `std::cin` and `std::cout` are modelled as an input byte sequence and an output byte sequence. The timing of writes and blocking reads is not modelled. The program includes `<windows.h>` (SyBlang.cpp:8) and so runs on Windows, where both are text-mode streams: a written byte 10 becomes 13 10, and redirected input turns 13 10 into 10 and ends at a byte 0x1A. This translation is not modelled: the model's output is the bytes the program writes, and its input is the bytes it reads after translation.
- The exceptions thrown by the jump-table builder, their message text, and the abnormal end they cause are not modelled. The two failures are returned as `JumpError` values.
- Machine.Execute, Machine.Run, Interpreter.Interpret: a run is bounded by `fuel` steps and reports whether it reached the end, because the source runs until the end of the tokens and may loop forever.
- Instructions.SortByLength: `std::sort` is unstable, so the order among instructions of equal length is unspecified. The model keeps their input order, and the contract states only the permutation and the ordering. `SortedScan` shows that, for the fixed list, this order cannot change any tokenization.
- Tokenizer.Tokenize, Tokenizer.Scan: these require that no instruction is empty. The source does not check this: with an empty instruction its loop would never advance. The fixed list has none (`TableHasNoEmptyInstruction`).
- Machine.Execute, Machine.Step: these require a jump table with an entry, pointing into the program, for every loop instruction. In the source, `jump[ip]` on a missing key would insert 0; that cannot happen after a successful `buildJumpTable`, and `PairedProgram` shows it.
- The tape cells are `int`, as in the source's `vector<int>`. `& 0xFF` and the `(char)` conversion both take the low byte, written here as Euclidean `% 256`. This agrees for every integer in two's complement; the width of `int` itself is not modelled.
