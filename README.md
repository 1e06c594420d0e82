# A verified model of the Circuit simulator's core

Circuit.java is a hierarchical digital-logic simulator. A circuit type is defined in a text file with
these sections:

- `inputNames` and `outputNames` name its pins.
- `circuit` and `circuitInputs` statements place sub-circuits of other types and wire their inputs.
- `outputs` wires its outputs.
- `truthTable` gives a table instead of sub-circuits.
- `propagationDelay` gives per-output delays.

Loading a file builds a tree of instances. Each instance owns an array of input cells and an array of output cells, and every wire is an alias of a cell of another instance. `simulate` runs the tree:

- a circuit with a truth table looks its outputs up;
- any other circuit gathers the inputs of its children in order, simulates each one, and copies its outputs from the cells they are bound to.

`simulatePropagationDelay` runs the same tree with delays in place of logic values. After a load, a circuit that is flagged combinational gets a truth table calculated from its own simulation and from then on answers by lookup. `runTestCase` runs a file of test vectors and counts the outputs that differ from the desired ones.

The project models each of these parts:

| Module | Models |
|---|---|
| `Circuits` | A circuit is a datatype whose mutable parts are its cell arrays. `Run` is the reference semantics of both simulation modes, on the contents of every cell of the tree (`State`). A logic run needs 0 or 1 in every cell it reads before writing it (`Settled`). |
| `Simulator` | `simulate`, `gatherInputs` and `simulatePropagationDelay` as methods over the arrays. Each is proved to leave the cells as `Run` says. |
| `Synthesis` | `calculateTruthTable` and the theorem behind it: a circuit whose whole tree is combinational answers by table lookup exactly as by simulation. |
| `Lexer` | The token reader as a class: `getToken2`, `getRepeatToken`, `initRepeatToken` and `ungetToken`. Each method is proved against a pure tokenisation (`Tokenize`) of the scanned file. |
| `Sections`, `TableText`, `Resolution` | What each section of a file means, as functions of the token stream. `getArrayAndIndex` is in `Resolution`. |
| `Drafts` | The section loop of `loadFromFile` and the checks after it, as functions. |
| `Loader` | A class whose fields are those of the circuit being loaded. Its section methods are proved to do what `Drafts` says, followed by the automatic flattening. |
| `Instances` | The allocation of a fresh instance of a loaded definition. |
| `TestRunner` | `runTestCase` as methods over a `Lexer`, proved against the function `Cases`. |

## Model

| member | source | states |
|---|---|---|
| Simulator.Simulate | Circuit.java:113-137 | After `simulate`, every cell of the tree holds what the reference semantics `Run` in logic mode gives from the cells before, for tables and for children alike. |
| Simulator.SimulatePropagationDelay | Circuit.java:139-167 | After `simulatePropagationDelay`, every cell of the tree holds what `Run` in delay mode gives from the cells before. |
| Simulator.SimulateTable | Circuit.java:116-125 | The output cells become the bits of the table word stored at the row number that packs the input cells. |
| Simulator.DelayLeaf | Circuit.java:142-155 | In a circuit without children, each output cell becomes its delay (1 when no delays are given) plus the largest input delay. |
| Simulator.GatherInputs | Circuit.java:104-111 | Each bound input cell of child k takes the value of the cell it is bound to; each unbound input cell keeps its value. |
| Simulator.GatherOne | Circuit.java:106-110 | A single input is set from its binding when it has one, and no other input cell changes. |
| Simulator.ReadCell | Circuit.java:108 | A binding reads the parent's input cell or the bound output cell of the named child. |
| Simulator.CopyOutputs | Circuit.java:133-135 | Each output cell of a composite circuit takes the value of the cell its output binding names. |
| Simulator.RunChild | Circuit.java:129-131 | Gathering and running child k changes the cells of child k's subtree and nothing else of the tree. |
| Simulator.RunAll | Circuit.java:128-132 | The children run one after another in list order, each seeing the outputs of the children before it. |
| Circuits.Run | Circuit.java:113-167 | A run never changes the input cells of the circuit it is applied to, and it fits the tree. A logic run needs 0 or 1 in the inputs and in every cell it reads before writing it. It leaves 0 or 1 in the outputs and the tree in that same condition. |
| Circuits.BinarySettled | Circuit.java:113-137 | Cells that all hold 0 or 1 meet what a logic run needs. |
| Circuits.RunBinary | Circuit.java:113-137 | A logic run from cells that all hold 0 or 1 leaves every cell of the tree 0 or 1. |
| Circuits.StepSettles | Circuit.java:128-132 | Once child k has run in logic mode, children 0 .. k have 0/1 outputs. Every cell that a later child reads before it is written still holds 0 or 1. |
| Circuits.Step | Circuit.java:128-132 | Running child k leaves the circuit's own cells and every other child unchanged. |
| Circuits.GatheredBits | Circuit.java:104-111 | In a logic run, every input child k gathers on its turn is 0 or 1, and the child is then ready to run. |
| Circuits.TableOutputs | Circuit.java:116-125 | A table lookup gives one 0/1 value per output. |
| Circuits.BoundBits | Circuit.java:133-135 | Once every child has run, the outputs copied from the inputs and from the children's outputs are 0 or 1. |
| Circuits.DelayOutputs | Circuit.java:147-154 | The delay rule gives one value per output. |
| Circuits.MaxInputIsMax | Circuit.java:143-146 | `maxInputProp` is at least every input and at least 0, and it is either 0 or one of the inputs. |
| Synthesis.CalculateTruthTable | Circuit.java:77-102 | A circuit that is not combinational all the way down gets no table and its cells do not change. Otherwise the table it gets has, for every row, the packed outputs of simulating that row. |
| Synthesis.Tabulate | Circuit.java:89-100 | The row loop yields, for every row, the word whose bit i is output i after simulating with input i set to bit i of the row number. |
| Synthesis.NextRow | Circuit.java:90-99 | One pass of the row loop sets the inputs to the row's bits, simulates, and returns the packed outputs of that row. |
| Synthesis.RunRow | Circuit.java:90-97 | Setting the inputs of row r and simulating leaves the cells as `Run` says, and the result is the packing of the outputs. |
| Synthesis.SetRow | Circuit.java:90-92 | The input cells hold the bits of the row number, least significant first, and no other cell changes. |
| Synthesis.PackOutputs | Circuit.java:94-97 | `val \|= outputs[i] << i` gives the number whose bit i is output i. |
| Synthesis.SynthesizedRow | Circuit.java:89-100 | For any cells that agree on the unbound inputs of the tree, the table word at the packed inputs is the packed outputs of a run on those cells. |
| Synthesis.Flattening | Circuit.java:757-761 | After flattening, lookup in the synthesized table gives the same outputs as simulating the sub-circuits. This holds from any ready cells that agree on the unbound inputs. |
| Synthesis.RunAgrees | Circuit.java:113-137 | The outputs of a circuit that is combinational all the way down depend only on its inputs and on the unbound input cells of its tree, whatever its other cells hold. |
| Synthesis.FrozenSettled | Circuit.java:104-137 | A combinational circuit whose unbound input cells hold 0 or 1 meets what a logic run needs, whatever its other cells hold. |
| Synthesis.BinaryFrozen | Circuit.java:104-111 | Cells that all hold 0 or 1, as loading leaves them, have 0/1 unbound input cells. |
| Synthesis.DelaySettles | Circuit.java:139-167 | Take a combinational circuit whose unbound input cells hold 0 or 1. After `simulatePropagationDelay` it is settled, so a test run may follow, and setting its inputs to 0 or 1 makes it ready for `simulate`: every delay the run left in a cell is overwritten before it is read. |
| Synthesis.RowsBinary | Circuit.java:89-100 | The row loop keeps every cell 0 or 1 when all of them start that way. |
| Synthesis.RunFreezes | Circuit.java:104-167 | A run never changes the unbound input cells of any descendant (the constants set by a `circuitInputs` or a `0`/`1` input). |
| Synthesis.StepAgrees | Circuit.java:128-132 | Running child k from two states that agree on the inputs and on the outputs of the earlier children gives child k the same outputs in both. |
| Synthesis.LookupPacked | Circuit.java:116-125 | If the word at the packed inputs is the packing of o, lookup gives exactly o. |
| Synthesis.FlagsAdmitLatch | Circuit.java:79-81 | Counterexample to the source's guard: the direct children's flags allow the table, yet the outputs depend on a remembered bit. See Findings. |
| Bits.UnpackPack | Circuit.java:118-124 | Unpacking the packing of a row of 0/1 cells gives the cells back. |
| Bits.PackUnpack | Circuit.java:90-92 | Packing the first n bits of a number below 2^n gives the number back. |
| Bits.BitOfPack | Circuit.java:119-123 | Bit i of a packed row is cell i. |
| Bits.PackSnoc | Circuit.java:95-97 | Appending a cell adds its bit at the next position. |
| Bits.SetBitSnoc | Circuit.java:655-657 | `v \|= 1 << j` on the packing of j cells is the packing with a 1 appended. |
| Bits.Pack | Circuit.java:117-120 | The packing of n 0/1 cells is below 2^n, so it indexes a table of 2^n rows. |
| Bits.Unpack | Circuit.java:90-92 | Unpacking gives n cells, cell i being bit i. |
| Lexer.Lexer.GetToken | Circuit.java:426-476 | Each call delivers the next token of the file's token stream, and null (`None`) once it is exhausted. A malformed repeater fails with "Illegal repeater". |
| Lexer.Lexer.GetRepeatToken | Circuit.java:361-388 | Delivers the first token still owed by the repeater, and the repeater then owes the rest. |
| Lexer.Lexer.InitRepeatToken | Circuit.java:390-424 | Succeeds exactly when the bracket word parses. The tokens the repeater then owes are its expansion: n copies of the head, or the range counted from a to b. |
| Lexer.Lexer.UngetToken | Circuit.java:478-481 | After a token is read with nothing owed or pushed back, ungetting it puts it back in front of the stream. |
| Lexer.Lexer.ReadWord | Circuit.java:454-473 | A word yields its first token. The rest, including a closing brace fused to its end, is owed next. A keyword leaves nothing owed. |
| Lexer.Lexer.ReadRepeater | Circuit.java:467-470 | A bracket word yields the first token of its expansion, which is never a keyword, and owes the rest. |
| Lexer.Lexer.ReadSource | Circuit.java:443-475 | Scanning delivers the first token of the rest of the file and leaves the rest, skipping empty items and comments. |
| Lexer.Lexer.SkipBlanks | Circuit.java:443-453 | Skipping empty items and comments never changes the token stream, and stops at a word. |
| Lexer.Lexer.constructor | Circuit.java:352-353 | A new reader delivers exactly the tokens of the scanned file. |
| Lexer.RangeTokensAt | Circuit.java:375-387 | A range a:b gives \|b - a\| + 1 tokens. Token k carries a + k when counting up and a - k when counting down, between the head and the tail. |
| Lexer.Copies | Circuit.java:364-372 | A count repeater gives n tokens, each the head. |
| Lexer.ExpansionHeadIsNoKeyword | Circuit.java:460-470 | The first token of a repeater's expansion is never a keyword, so it never needs to be pushed back over tokens still owed. |
| Lexer.RangeTokenIsNoKeyword | Circuit.java:375 | A token of a range contains a decimal number, so it is never a keyword. |
| Lexer.TokenizeComment | Circuit.java:448-453 | A word starting with `#` drops the rest of its line from the stream. |
| Lexer.SkipLine | Circuit.java:452 | `nextLine` leaves a suffix of the scanned file. |
| JavaLang.IndexOf | Circuit.java:510 | `indexOf` is -1 exactly when x is absent, and otherwise the first position of x. |
| JavaLang.ParseIntToString | Circuit.java:743 | `Integer.parseInt` reads a printed `int` back as the same `int`. |
| JavaLang.DropTrailingEmpty | Circuit.java:394 | `split` drops exactly the trailing empty strings. |
| Resolution.Resolve | Circuit.java:504-552 | A name that resolves always names a cell in scope. The result differs from the source's only where the source would name an output cell the sub-circuit does not have (an index past its outputs, or a negative one such as `g.-1`), and then the name is not found. |
| Resolution.ResolveInput | Circuit.java:509-515 | A name resolves to input i exactly when input i is the first input of that name. |
| Resolution.ResolveOutput | Circuit.java:517-548 | A name resolves to output i of sub-circuit j only when it names no input, and j is the first sub-circuit it designates. Output i is then the only output, or the first output named by the suffix, or the number the suffix spells. |
| Resolution.ResolveNamedOutput | Circuit.java:534-538 | `d.y` resolves to output y of the first sub-circuit named d. |
| Resolution.FirstMatch | Circuit.java:522-524 | The search picks the first sub-circuit the name designates. |
| Resolution.Suffix | Circuit.java:518-520 | The suffix is what follows the first dot, when the dot is not the first character. |
| Resolution.UncheckedIndex | Circuit.java:540-542 | Counterexample: as written, `g.5` resolves to output 5 of a sub-circuit with one output. See Findings. |
| Sections.StringListWritten | Circuit.java:491-502 | Names that are neither keywords nor braces, closed by a brace, read back as exactly that list, and the brace is consumed. |
| Sections.StringListStops | Circuit.java:491-502 | The list read is a prefix of the stream free of keywords and braces. It stops at the end, at a keyword (which is left in the stream), or at a brace (which is consumed). |
| Sections.HeaderOf | Circuit.java:557-558 | A statement's type and name are its first two tokens. |
| Sections.FirstNamed | Circuit.java:566-575 | The search finds the first sub-circuit of the given name. |
| Sections.Target | Circuit.java:559-581 | A reused sub-circuit is one that exists. A new one is made only from a type that has a definition. |
| Sections.WiresWritten | Circuit.java:584-605 | One resolvable name per input wires each input to the cell its name resolves to. |
| Sections.WiresEllipsis | Circuit.java:590-593 | `...` after fewer names than inputs ends the wiring and marks the circuit sequential. |
| Sections.WiresShort | Circuit.java:586-588 | A closing brace before every input is wired fails with "Not enough inputs". |
| Sections.WiresPoint | Circuit.java:594-600 | Every wire read is a cell in scope or the constant 0 or 1. |
| Sections.Wires | Circuit.java:584-605 | Without `...` exactly one wire is read per input, and never more. |
| Sections.SubCircuitWritten | Circuit.java:554-611 | A new sub-circuit with one name per input and a brace is appended under its name, with its inputs bound as written. |
| Sections.SubCircuitTooMany | Circuit.java:607-610 | Anything but a brace after the inputs fails with "Too many inputs". |
| Sections.SubCircuitTooFew | Circuit.java:586-588 | A brace one name short fails with "Not enough inputs". |
| Sections.SubCircuitSequential | Circuit.java:590-593 | `... }` after some of the inputs appends the sub-circuit and clears the circuit's combinational flag. |
| Sections.OutputsWritten | Circuit.java:613-636 | One resolvable name per output and a brace bind each output to its cell. Fewer names fail with "Incomplete circuit outputs". |
| Sections.OutputsInScope | Circuit.java:623-626 | Every output is bound to a cell in scope. |
| Sections.Delays | Circuit.java:739-744 | Delays are read one per output, each the `parseInt` of its token. A short or unparsable list fails. |
| Sections.DelaysWritten | Circuit.java:739-744 | Delays written as integers read back as the same delays, whatever follows them. |
| Sections.WiredInScope | Circuit.java:594-600 | Wiring a sub-circuit with wires in scope keeps all its bindings in scope and its cells 0 or 1. |
| TableText.ScanToken | Circuit.java:654-662 | The character loop sets bit j for a '1', moves on for a '0' and passes over other characters. |
| TableText.ScanOne | Circuit.java:654-662 | One bit token extends the packed prefix of the bits by one bit. |
| TableText.FieldWritten | Circuit.java:649-663 | A field written as its bit tokens reads back as its value, and the tokens after it are left. |
| TableText.RowsWritten | Circuit.java:646-685 | A table written out row by row reads back as the same table. |
| TableText.TableWritten | Circuit.java:638-692 | A table written out and closed by a brace reads back as the same table. |
| TableText.RowsSize | Circuit.java:643-644 | A table read has one word per row, 2^n in all. |
| TableText.RowStep | Circuit.java:646-684 | A row stores its word at the row number its input bits spell. |
| Drafts.Step | Circuit.java:707-748 | Each section consumes tokens and keeps one cell-state per sub-circuit. |
| Drafts.StepSound | Circuit.java:707-748 | Every section keeps the draft sound: all bindings point at cells in scope, and all sub-circuits are usable and hold 0/1 cells. |
| Drafts.ReadSound | Circuit.java:707-749 | The whole section loop keeps the draft sound. |
| Drafts.StepLoads | Circuit.java:730-737 | `outputsLoaded` is set by an `outputs` or a `truthTable` section, and by no other. |
| Drafts.FinishedLoaded | Circuit.java:751 | A sound draft that passes the final checks describes a well-formed circuit with 0/1 cells and its inputs unbound. |
| Drafts.InputNamesSection | Circuit.java:709-714 | The `inputNames` section changes only the input names. It fails when a wire already reads the input cells it would replace (see Left out). |
| Drafts.OutputNamesSection | Circuit.java:715-720 | The `outputNames` section changes only the output names, and leaves every output unbound. |
| Drafts.OutputsSection | Circuit.java:730-733 | The `outputs` section binds every output to a cell in scope and changes nothing else. |
| Drafts.TableSection | Circuit.java:734-737 | The `truthTable` section changes only the table. |
| Drafts.DelaySection | Circuit.java:738-745 | The `propagationDelay` section changes only the delays. |
| Drafts.SubCircuitKeeps | Circuit.java:554-611 | A sub-circuit statement does not touch `outputsLoaded`. |
| Loader.Load | Circuit.java:695-764 | A load fails exactly when the file's reading fails, and with its error. A successful load gives a well-formed tree of fresh cells holding 0/1 values, given its synthesized table exactly when the guard holds and the tree is combinational. |
| Loader.Flatten | Circuit.java:757-761 | The automatic flattening gives the circuit its synthesized table when the guard holds and the tree is combinational, and otherwise leaves it as loaded. |
| Loader.Loader.ReadDefinition | Circuit.java:702-755 | The fields, read section by section, become a fresh instance of exactly the circuit the file describes, or fail as the file's reading does. |
| Loader.Loader.ReadSections | Circuit.java:707-749 | The section loop leaves the fields as the whole file's sections say. |
| Loader.Loader.Command | Circuit.java:709-748 | Dispatch on the keyword runs the matching section, and the fields then are the draft that section gives. |
| Loader.Loader.CircuitCommand | Circuit.java:721-729 | A `circuit` or `circuitInputs` statement leaves the fields as the section step says. That step refuses `circuit` before both name lists. |
| Loader.Loader.Finished | Circuit.java:751 | Fails exactly as the final checks do: no `outputs` or `truthTable` section, missing names, or sections that disagree. Otherwise gives a fresh instance of the draft. |
| Loader.Loader.constructor | Circuit.java:702-705 | A new load starts from the empty draft, reading the whole file. |
| Loader.Loader.GetArrayAndIndex | Circuit.java:504-552 | The name is resolved against the current inputs and sub-circuits, as `Resolve` says. |
| Loader.Loader.LoadStringList | Circuit.java:491-502 | Reads the names the list function gives, pushing a keyword back. |
| Loader.Loader.NextName | Circuit.java:494-500 | One pass of the name loop: a name is added, or the list ends at a keyword, a brace or the end of the file. |
| Loader.Loader.PushBack | Circuit.java:495-497 | Ungetting the keyword just read restores the stream. |
| Loader.Loader.LoadSubCircuit | Circuit.java:554-611 | The fields become the draft with the statement's sub-circuit added or rewired, or the load fails with the statement's error. |
| Loader.Loader.FindTarget | Circuit.java:559-575 | The name checks pick the sub-circuit to wire, or fail with the source's error. |
| Loader.Loader.ReadWires | Circuit.java:584-605 | The input loop reads exactly the wires, and the `...` marker, that the wire list of the stream holds. |
| Loader.Loader.ReadWire | Circuit.java:585-604 | One input: a resolved cell, a constant, `...`, or the statement's error. |
| Loader.Loader.Rewire | Circuit.java:590-600 | Wiring sub-circuit k, and clearing the flag on `...`, leaves the fields as `Rewired` says. |
| Loader.Loader.Enlarge | Circuit.java:576-581 | A new sub-circuit is appended, before its inputs are read, with the cells its definition holds. |
| Loader.Loader.LoadOutputs | Circuit.java:613-636 | The output bindings become those the `outputs` section gives. |
| Loader.Loader.ReadOutput | Circuit.java:618-629 | One output name is resolved to its cell, or fails. |
| Loader.Loader.LoadTruthTable | Circuit.java:638-692 | The table becomes the one the `truthTable` section gives. |
| Loader.Loader.FillRows | Circuit.java:646-685 | The row loop fills the table array as the rows of the stream say. |
| Loader.Loader.ReadRow | Circuit.java:647-683 | One row reads its number and its word and stores the word there. |
| Loader.Loader.SkipToBrace | Circuit.java:686-691 | Tokens are skipped up to and including the next brace, and the end of the file fails. |
| Loader.Loader.LoadPropagationDelay | Circuit.java:738-745 | The delays become those the `propagationDelay` section gives. |
| Instances.Instantiate | Circuit.java:576-580 | A new instance has the definition's shape, cells of its own that are all fresh and pairwise distinct, and the definition's cell contents. |
| Instances.CopyWellFormed | Circuit.java:576-580 | A copy of a well-formed circuit is well formed. |
| TestRunner.RunTestCase | Circuit.java:173-272 | The run fails exactly when `Cases` does. Otherwise it counts as many errors as the mismatches of all cases and leaves the cells as the last case left them. |
| TestRunner.RunCases | Circuit.java:186-265 | The command loop counts the total errors of the cases that `Cases` reads from the stream. |
| TestRunner.Dispatch | Circuit.java:187-264 | `testCase` runs one case, `}` is skipped, and any other command fails. |
| TestRunner.CaseCommand | Circuit.java:187-240 | A test case adds its mismatches to the count. |
| TestRunner.RunCase | Circuit.java:188-240 | A case sets the inputs, simulates, and counts the outputs that differ from the desired bits. |
| TestRunner.ReadCase | Circuit.java:188-211 | Both arrays are filled with exactly the bits the case's text holds, or the run fails with an incomplete case. |
| TestRunner.ReadCells | Circuit.java:188-198 | Tokens are read until the array is full or the file ends, and the bits read fill a prefix of the array. |
| TestRunner.ScanBits | Circuit.java:191-197 | The '0' and '1' characters of a token go into the next cells in order, and a token with too many bits fails. |
| TestRunner.CountErrors | Circuit.java:236-239 | The count is the number of positions where the outputs differ from the desired bits. |
| TestRunner.NoMismatch | Circuit.java:236-239 | A case has no errors exactly when the outputs are the desired ones. |
| TestRunner.AllPassed | Circuit.java:266-271 | "ALL TEST CASES PASSED" (a total of 0) holds exactly when every case got its desired outputs. |
| TestRunner.CasesShaped | Circuit.java:188-240 | Every case run has one 0/1 bit per input and one bit per output. |
| TestRunner.CaseStep | Circuit.java:187-240 | After `testCase`, a run sets the case's inputs, simulates, and goes on from the resulting cells. |
| TestRunner.BitsOfAppend | Circuit.java:191-197 | The bits of two tokens together are the bits of the first followed by the bits of the second. |
| TestRunner.BitsOfBinary | Circuit.java:191-197 | A token of '0' and '1' characters gives one bit per character. |
| TestRunner.Mismatches | Circuit.java:236-239 | The number of errors never exceeds the number of outputs. |

## Left out

- CircuitSim.java, the command-line driver, is not part of this model.
- Printing is left out:
  - every message of `error` and of `runTestCase`;
  - the load counter;
  - the `##` test-case descriptions, which are skipped like comments.
- `System.exit` is not modelled as such. Every call to `error` becomes a failure outcome (`Errors.Error`), and so do the uncaught Java exceptions of the loader and the test runner: a null token, an index past a list of names or bits, a failed `parseInt`. The exceptions the model does not reach are listed below, next to the members concerned.
- `openCircuitFile`, the `Scanner` and the file cache are replaced: a file is the sequence of words and line breaks that its delimiters cut it into (`Lexer.Raw`).
- Loading a sub-circuit type from its own file is replaced by a library of definitions already loaded. Each definition is a circuit shape plus the contents its load left in its cells. A type missing from the library fails as opening a missing file does.
- Some deviations from the source are part of the model's load semantics:
  - A missing `inputNames` or `outputNames` section fails at the end of the load. The source fails with a null array.
  - A names section after the table, the delays or the outputs it sizes makes the sections disagree. The load then fails (`InconsistentSections`); in the source, simulation would index outside an array.
  - A truth table for more than 30 inputs fails (`TableTooLarge`), since 2^n rows cannot be allocated.
- Drafts.InputNamesSection: an `inputNames` section after a sub-circuit input or an output has been wired to an input cell fails (`InconsistentSections`). The source allocates a new input array there, and the wires made before keep reading the old one, which is never written again.
- Drafts.Complete: a file with a `truthTable`, sub-circuits and no `outputs` section fails (`InconsistentSections`). The source loads it and answers logic simulation by lookup; only its delay run would dereference an unwired output.
- Lexer.Lexer.InitRepeatToken: requires the supported forms of repeater. Left out are:
  - `X[n]` with n at most 0, which makes `getRepeatToken` read range state left over from an earlier token;
  - a count repeater whose head is a keyword;
  - a keyword fused to a closing brace, which would be pushed back over a token still owed.
- Lexer.Lexer.GetToken: requires a file made only of supported words, for the same reason.
- Lexer.SkipLine: when a `#` word is the very last text of the file, the source's `nextLine` throws a NoSuchElementException (the whole-file read strips the final line break). The model's SkipLine returns the empty rest, and the file ends normally there.
- Simulator.Simulate: requires 0 or 1 in the input cells and in every cell the run reads before writing it (`Circuits.Ready`). With any other value reaching a truth table, the source's lookup would compute a row number outside the table. The requirement is stronger than the source needs for a circuit with feedback: after `simulatePropagationDelay` its fed-back cells still hold delays, even when none of them would reach a table. For combinational circuits, `Synthesis.DelaySettles` shows the requirement holds again once the inputs are set.
- Circuits.Run: a logic run has the same requirement as `Simulator.Simulate`.
- Circuits.Step: in a logic run, the same requirement as `Simulator.Simulate`, with children 0 .. k-1 already run.
- Simulator.RunAll: the same requirement as `Circuits.Step` for the first child.
- Simulator.RunChild: the same requirement as `Circuits.Step`.
- Synthesis.CalculateTruthTable: requires at most 16 inputs and 32 outputs, which the only caller's guard ensures. It uses the corrected combinational test described under Findings.
- TestRunner.RunTestCase: `totalErrors` is an unbounded count. The source's `int` could overflow after 2^31 errors.
- TestRunner.RunTestCase: requires the cells to be settled, as `Simulator.Simulate` does; the root inputs may hold anything, since every case sets them. `Synthesis.DelaySettles` shows a combinational circuit is settled after `simulatePropagationDelay`; a circuit with feedback whose fed-back cells hold delays is outside the model.
- TestRunner.RunCases: the same requirement as `TestRunner.RunTestCase`.
- TestRunner.Dispatch: the same requirement as `TestRunner.RunTestCase`.
- TestRunner.CaseCommand: the same requirement as `TestRunner.RunTestCase`.
- TestRunner.RunCase: the same requirement as `TestRunner.RunTestCase`.
- Simulator.DelayLeaf: delays are unbounded integers. Java's `int` addition could wrap.
- Bits.Pack: a table word is the unsigned value of its 32 bits. Java holds a word with bit 31 set as a negative `int`.
- JavaLang.ParseIntToString: `Integer.parseInt` is modelled for ASCII digits only. Java also accepts other Unicode decimal digits.
- The sub-circuit inputs are applied after the whole input list has been read, not one at a time. Any error in between ends the load, so nothing observable differs.
- The truth table and the delays are read into arrays local to the section, then stored in the field.
- `outputsLoaded` is a field of the loader rather than a local variable of `loadFromFile`.

## Findings

| source | as written | input that shows it | evidently intended | confidence | as-written member | corrected member |
|---|---|---|---|---|---|---|
| Circuit.java:79-81 | `calculateTruthTable` looks only at the `isCombinatorial` flags of the direct children, and a flag is cleared only by a `...` in that circuit's own file. | TOP holds HOLD, which holds LATCH, a buffer whose input is wired through `...` to its own output. The flags of TOP and HOLD stay true, so TOP is flattened. Yet TOP outputs 0 or 1 with the same inputs, depending on the bit LATCH remembers. | Flatten only a circuit whose whole tree is combinational. | not executed | Synthesis.FlagsAdmitLatch | Synthesis.CalculateTruthTable |
| Circuit.java:540-542 | `getArrayAndIndex` takes a number after the dot as an output index without comparing it with the number of outputs. | `g.5` where sub-circuit g has a single output resolves to output 5 of g, which a later simulation would index past the end of; `g.-1` resolves to output -1 of g. | Such a name is not found ("Could not find input/output"). | not executed | Resolution.UncheckedIndex | Resolution.Resolve |
