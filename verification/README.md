# Verification of the CIL assembler, the PE writer and the JVM edge lowering

A Dafny model of three parts of the repository, with proofs of what they are
for. Each module models one source file or one concern of it; the names are
those of the source.

**The CIL method assembler** (`Bytes`, `Opcodes`, `Instructions`, `Passes`,
`Relaxation`, `Encoding`, `Decoding`, `Meaning`, `ShortForms`, `Simulation`,
`Acceptance`, `SehTags`, `SehScan`, `SehClauses`, `SehAcceptance`, `Epilogues`,
`CodeContainers`, `Liveness`, `Reachability`, `StackEffects`, `MaxStack`,
`Locals`, `Methods`). `CodeContainer` and `Method` are classes whose methods rewrite
their instruction list, label map, flags and locals in place, pass by pass, as
the C++ does. Beside them stands an independent reader of byte code that
follows Partition III of ECMA-335, and a run of the list as its author wrote
it, jumping to labels. The main result is that the two run alike, for every
meaning of the data instructions and every number of steps. Around it:
relaxation is exact, closed and least; liveness is the least closed set and has
all that any run executes; the stack usage of every instruction is what
ECMA-335 says it pushes less what it pops, but for those named, and the stack
scan is right exactly where it counts and guesses right; the numbering of locals is
optimal exactly when no exchange saves a byte; the clauses of nested exception
blocks come out complete and inner first, but for one case that is named; the
tag check accepts exactly the groups of nested blocks, refuses the others for
the reason one pass with a stack finds, and the blocks it accepts are closed
as the standard asks.

**The PE file and its metadata** (`MethodBodies`, `Tables`, `TableFormats`,
`TableStream`, `TablePositions`, `MetadataRoot`, `Layout`, `PEWriting`,
`PEReading`, `FileHeaders`, `Heaps`, `Compression`, `Signatures`,
`SignatureGrammar`).
`PEWriter` plans addresses and emits the file in two independent walks, each
with its own alignment code. The model proves for any contents exactly when
both agree, that the reader gets from the first byte to the metadata root, every
stream, every method body and the imports, and that tables, heaps, bodies and
signatures read back what was put in, with the exact condition where they
sometimes do not. The address in the row of a method, once loaded, leads to
the body of that method. Headers, rows and signatures are also read by decoders
written after ECMA-335 alone, with its offsets, widths and codes as literals.

**The JVM control flow lowering** (`EdgeLowering`, `LoopPrinting`,
`WholeFunction`, `FunctionSlots`, `ValueSlots`, `Gep`) and **the object text** (`ObjectText`,
`ObjectStream`). The printed code is run by a small machine: every edge of a
function leads to the right block with every PHI holding its incoming value
exactly when the edge loses no copy, in registers as well as in the one or two
slots each value has; every block of a loop nest is printed once, `setjmp`
finds its slots, and pointer arithmetic is the sum of the scaled indexes. The parser of the object text is proved against
its writer, cursor and all.

Loops, pools, streams and cursors are imperative: methods over classes and
arrays, proved against functions, about which the lemmas speak.

## Where the code does not do what it seems to

Each is a lemma; the exact condition is proved where there is one.

- Calling `Optimize` twice counts uses on top of the first count and moves
  locals whose accesses already have their slot in the opcode
  (`SecondOptimizeChangesMeaning`); it is safe exactly when the slots named
  outright keep their locals (`SecondOptimizeKeepsActionsIff`).
- The stack scan takes the stack for empty at a label that it meets after a
  branch and that nothing has referred to yet, and after a call of net usage
  -127, and goes on behind `throw`, `ret` or the end of an exception block with
  what the code before has left (`ScanFindsDiscipline`,
  `DisciplinedButRejected`).
- The table counts `throw` as a push, and `cpobj` and `ldvirtftn` as popping
  one value less than they do (`TableStackIsEcma`, `StackUsageIsEcma`); a body
  that ends in `throw` can be rejected for it (`ThrowIsRejected`).
- The short forms of `ldloc`, `stloc`, `ldarg` and the like are not used for
  slots 128 to 255, which they could hold (`LocalIsShortestIff`,
  `ArgumentIsShortestIff`).
- A `finally` block has to be closed by the mnemonic `endfinally`; `endfault`,
  the same opcode, is refused (`FinallyWantsItsName`).
- `ExportedType` rows take an index into `TypeDef` where the standard has a
  4-byte hint (`SchemaIsStandardIff`), and `EventMap` and `PropertyMap` are
  flagged as sorted (`HeaderIsStandard`).
- `ldloca` counts like a load but has no one-byte form
  (`AddressesSpoilNumbering`, `NumberingIsOptimalIff`).
- A `try` block without handlers passes validation behind another group
  (`HandlerlessTryAccepted`), and so does a filter handler without a filter;
  the clauses are then not those of a forest (`AcceptedIsForest`). If such a
  `try` block ends the list, `CompileSEH` reads past its tags
  (`AcceptedHasClauses`).
- The check of the epilogues looks for the leaving instruction anywhere
  before the end of a block, so an accepted block may be empty; only with an
  empty `try` block can a clause come behind one it is inside of
  (`EmptyTryAccepted`, `ClausesInnerFirst`).
- `GenericParamConstraint` and `ExportedType` rows report the number of
  another table and are filed there; the plan and the reader are then wrong
  except where stated (`AddTableEntry`, `StringsPlannedIff`,
  `MixedTableShiftsStrings`, `TablesReadBack`). In this repository only the
  reader makes such rows (`llxvm-cc/dotnetpelib/PEReader.cpp:101-111`), so this
  concerns callers that hand them to the writer.
- `HasIndexOverflow` does not look at every table an index can refer to
  (`CountedUnlessOverlooked`, `OverlookedDoesNotFit`), and its shift wraps
  (`LargeIsExact`).
- Writer and reader choose different index widths for a heap of 65533 to
  65535 bytes (`PaddingKeepsWidth`, `NearLimitDiffers`).
- `ReadFromGUID` takes the index, which counts GUIDs, for a byte position
  (`OnlyFirstGuidIsFound`).
- The import address table and the import directory name different addresses
  when the imports start 4 bytes after a multiple of 16 (`IatAgrees`).
- PHI copies are made one after the other, so a copy can overwrite a value a
  later one needs (`SwapIsLost`, `CopiesAreParallelIff`,
  `EveryEdgeKeepsMeaningIff`).
- The rows of `endfilter`, `unaligned.` and `volatile.` have the bytes of
  other instructions (`TableIsEcma`).

## Model

| member | source | states |
|---|---|---|
| Opcodes.TableIsEcma | llxvm-cc/dotnetpelib/Instruction.cpp:29-262 | A row of the opcode table has the opcode bytes and operand form of Partition III of ECMA-335 if and only if it is not `endfilter`, `unaligned.` or `volatile.` |
| Opcodes.RelPair | llxvm-cc/dotnetpelib/DotNetPELib.h:1055-1062 | The enum neighbour that `Rel4To1` moves to is always the 2-byte form of the same branch, never another opcode |
| Relaxation.RelaxIsExact | llxvm-cc/dotnetpelib/CodeContainer.cpp:391-422 | In the layout the relaxation loop ends with, every branch it shortened has a displacement in [-128,127], and no branch left long has one with the 2-byte form, although each pass decides on stale offsets |
| Relaxation.RangeIsKept | llxvm-cc/dotnetpelib/CodeContainer.cpp:400-422 | A branch in range before any set of shortenings stays in range after them |
| Relaxation.RoundShrinksRel4Set | llxvm-cc/dotnetpelib/CodeContainer.cpp:617-627 | Every round that changes something leaves strictly fewer long branches, so the loop ends |
| Relaxation.RelaxIsCurrent | llxvm-cc/dotnetpelib/CodeContainer.cpp:391-399 | The offsets stored when the loop ends are those of the final list |
| Relaxation.RelaxIsClosed | llxvm-cc/dotnetpelib/CodeContainer.cpp:400-422 | No further pass would change the result |
| Relaxation.RelaxIsLeast | llxvm-cc/dotnetpelib/CodeContainer.cpp:400-422 | Any other shortening that leaves no branch to shrink has shortened at least the same branches |
| Relaxation.SizeFallsByThree | llxvm-cc/dotnetpelib/CodeContainer.cpp:617-627 | Up to every position the code has become smaller by exactly 3 bytes for each branch shortened before it |
| Encoding.RenderedToSize | llxvm-cc/dotnetpelib/Instruction.cpp:269-279 | The bytes rendered for each prefix of the list are as many as `InstructionSize` adds up to |
| Decoding.FetchReads | llxvm-cc/dotnetpelib/Instruction.cpp:528-580 | Fetching at an instruction's byte offset, with an independent decoder of ECMA-335, gives back the action its author wrote, its labels resolved to byte positions, and the offset of the next instruction |
| Decoding.ReadOpcode | llxvm-cc/dotnetpelib/Instruction.cpp:528-580 | The emitted one- or two-byte opcode is read back as the same opcode and operand form |
| Meaning.PeepholeKeepsAction | llxvm-cc/dotnetpelib/CodeContainer.cpp:223-390 | The short forms chosen for constants, locals and arguments do what the long form did, in any frame numbered as the slots are |
| ShortForms.ConstantIsShortest | llxvm-cc/dotnetpelib/CodeContainer.cpp:223-273 | No instruction that loads the same constant is smaller than the form `OptimizeLDC` chooses |
| ShortForms.LocalIsShortestIff | llxvm-cc/dotnetpelib/CodeContainer.cpp:274-325 | No way to make the same access to a local is smaller than the form `OptimizeLDLOC` chooses, if and only if its slot is not one of 128 to 255 |
| ShortForms.ArgumentIsShortestIff | llxvm-cc/dotnetpelib/CodeContainer.cpp:326-390 | The same for arguments and `OptimizeLDARG` |
| Meaning.OptimizedRewrites | llxvm-cc/dotnetpelib/CodeContainer.cpp:200-208 | All passes together keep the action of every instruction, which instructions take no room, and where every label stands |
| Simulation.StepCorresponds | llxvm-cc/dotnetpelib/CodeContainer.cpp:74-99 | One step of the bytes from a byte pc does what one step of the label-level list does, through labels, comments and exception tags of no size, and through switch tables |
| Simulation.AssemblerIsCorrect | llxvm-cc/dotnetpelib/CodeContainer.cpp:74-208 | For every accepted list, every semantics of the data instructions and every number of steps, running the emitted bytes ends in the same data and at the same instruction as running the list that was optimized |
| Simulation.RewritesKeepRuns | llxvm-cc/dotnetpelib/CodeContainer.cpp:200-208 | The optimized list, run by its labels, runs as the list before |
| Simulation.SlotsKeptRuns | llxvm-cc/dotnetpelib/CodeContainer.cpp:274-325 | A list runs alike in two orders of the locals when each slot it names outright holds the same local |
| Acceptance.AcceptedIffWellMade | llxvm-cc/dotnetpelib/CodeContainer.cpp:423-489 | `ValidateInstructions` accepts the optimized list if and only if the author's own branches have labels, short branches written by him reach and slots fit the bytes of their operands; no pass can cause a rejection, and the error is that of the first instruction he got wrong |
| SehTags.ValidateSEHTags | llxvm-cc/dotnetpelib/CodeContainer.cpp:490-525 | The recursive scan with its early returns computes the specification of group validation |
| SehTags.ValidatedIffGroup | llxvm-cc/dotnetpelib/CodeContainer.cpp:490-525 | Validation succeeds and ends at r if and only if the tags up to r are the flattening of a group of balanced, properly nested blocks and r is the end or an enclosing end tag |
| SehScan.ValidatedIsScan | llxvm-cc/dotnetpelib/CodeContainer.cpp:490-525 | The recursion decides what one pass over the tags with a stack of open blocks decides: up to which tag it accepts, or which error the first bad tag is |
| SehTags.HandlerlessTryAccepted | llxvm-cc/dotnetpelib/CodeContainer.cpp:504-525 | A concrete list: a second try block without a handler is let through |
| SehClauses.CompileSEH | llxvm-cc/dotnetpelib/CodeContainer.cpp:100-162 | For the tags of any sequence of nested blocks that starts with a try block and puts an empty filter right before its handler, however handlers are missing otherwise, it appends one clause per handler, inner ones first, with the ranges of that handler, the class or filter last seen and the flags last set, and returns where the blocks end; the only lists it cannot take end in a try block, where it reads past its vector |
| SehClauses.InnerFirst | llxvm-cc/dotnetpelib/CodeContainer.cpp:100-162 | For blocks in the order of a layout, touching or empty as they may be: a clause is inside an earlier one (section I.12.4.2 of ECMA-335) if and only if its try block has no code and its handler is exactly one of the ranges of the earlier one |
| SehClauses.FlagsAreRight | llxvm-cc/dotnetpelib/CodeContainer.cpp:122-146 | In a forest the clause of a handler has the flag value of section II.25.4.6 of ECMA-335 for its kind (0, 1, 2 or 4), the range of the nearest try block before it, its own range, and its class or the offset of the filter right before it |
| SehClauses.StandsForIsUnique | llxvm-cc/dotnetpelib/CodeContainer.cpp:100-162 | Tags can be read as blocks in one way only |
| SehClauses.ForestIffFollowed | llxvm-cc/dotnetpelib/CodeContainer.cpp:490-525 | Accepted tags are those of a forest, each try block with a handler and each filter handler with its filter, if and only if every single tag is followed or preceded by what it needs |
| SehAcceptance.AcceptedHasClauses | llxvm-cc/dotnetpelib/CodeContainer.cpp:599-616 | After a successful `Optimize` the final tags stand for blocks `CompileSEH` can flatten if and only if the list does not end in a try block |
| SehAcceptance.AcceptedIsForest | llxvm-cc/dotnetpelib/CodeContainer.cpp:599-616 | After a successful `Optimize` the blocks flattened are a forest if and only if every tag up to the end of the group is followed well |
| SehAcceptance.ClausesInnerFirst | llxvm-cc/dotnetpelib/CodeContainer.cpp:100-177 | For any laid out list with its clauses: a later clause is inside an earlier one only in the one way above, and never when its try block has code |
| SehAcceptance.EmptyTryAccepted | llxvm-cc/dotnetpelib/CodeContainer.cpp:545-598 | A concrete accepted list with an empty try block, whose outer clause comes behind the inner one that it is inside of |
| Epilogues.EpilogueIsStandardIff | llxvm-cc/dotnetpelib/CodeContainer.cpp:545-598 | The end of a block passes the check if and only if the last code before it has the opcode bytes that ECMA-335 leaves a block of that kind with: `leave` for try, catch and filter handler, `endfinally` for finally and fault, `endfilter` for a filter, by the mnemonic made for that |
| Epilogues.StatusIsExplained | llxvm-cc/dotnetpelib/CodeContainer.cpp:599-616 | `ValidateSEH` reports what the pass over the tags finds, or else the end of any filter, or else a block not closed so; a list is accepted if and only if it has none of these |
| Epilogues.FinallyWantsItsName | llxvm-cc/dotnetpelib/CodeContainer.cpp:583-587 | Concrete lists: `try { leave } finally { endfinally }` is accepted, and refused with `endfault`, whose opcode is the same |
| CodeContainers.CodeContainer.LoadLabels | llxvm-cc/dotnetpelib/CodeContainer.cpp:209-222 | Loads the map of all labels, and fails exactly when one is defined twice |
| CodeContainers.CodeContainer.OptimizeLDC | llxvm-cc/dotnetpelib/CodeContainer.cpp:223-273 | Every constant load takes the shortest form for its value; nothing else changes |
| CodeContainers.CodeContainer.OptimizeLDLOC | llxvm-cc/dotnetpelib/CodeContainer.cpp:274-325 | Every access to a local takes the form for its slot; nothing else changes |
| CodeContainers.CodeContainer.OptimizeLDARG | llxvm-cc/dotnetpelib/CodeContainer.cpp:326-390 | Every access to an argument takes the form for its index; nothing else changes |
| CodeContainers.CodeContainer.CalculateOffsets | llxvm-cc/dotnetpelib/CodeContainer.cpp:391-399 | Stores in every instruction the sum of the sizes before it |
| CodeContainers.CodeContainer.ModifyBranches | llxvm-cc/dotnetpelib/CodeContainer.cpp:400-422 | Shortens exactly the long branches in range by the offsets current before the pass, and says whether there was none |
| CodeContainers.CodeContainer.ValidateInstructions | llxvm-cc/dotnetpelib/CodeContainer.cpp:423-489 | Reports the first branch, local or argument operand that does not fit its form, or success |
| CodeContainers.CodeContainer.ValidateSEHFilters | llxvm-cc/dotnetpelib/CodeContainer.cpp:526-544 | Fails exactly when some filter ends, whatever follows it |
| CodeContainers.CodeContainer.ValidateSEHEpilogues | llxvm-cc/dotnetpelib/CodeContainer.cpp:545-598 | Fails exactly when some block end lacks its closing instruction, which `EpilogueIsStandardIff` says by opcode |
| CodeContainers.CodeContainer.ValidateSEH | llxvm-cc/dotnetpelib/CodeContainer.cpp:599-616 | The three checks in order, and the flag that there are exception blocks |
| CodeContainers.CodeContainer.OptimizeBranch | llxvm-cc/dotnetpelib/CodeContainer.cpp:617-627 | When the exception tags are valid, leaves the relaxed list and the verdict of the range check on it; sets the flag for exception blocks if and only if there are tags |
| CodeContainers.CodeContainer.Optimize | llxvm-cc/dotnetpelib/CodeContainer.cpp:200-208 | The whole pass pipeline: its error, or the optimized list with the label map emptied again, and the flag for exception blocks |
| CodeContainers.CodeContainer.CompileClauses | llxvm-cc/dotnetpelib/CodeContainer.cpp:163-177 | Collects the tags of the body and returns the clauses of the blocks they stand for |
| CodeContainers.CodeContainer.Render | llxvm-cc/dotnetpelib/Instruction.cpp:528-580 | Writes one instruction at the moving position: opcode, operand and switch table, and no byte elsewhere |
| CodeContainers.CodeContainer.Compile | llxvm-cc/dotnetpelib/CodeContainer.cpp:74-99 | The buffer sized from the last offset is filled by the rendered instructions with no byte over |
| Liveness.CalculateLive | llxvm-cc/dotnetpelib/Method.cpp:396-449 | Terminates and sets the flags of the least set that has the first instruction and every opening of an exception block and is closed under falling through and branch and switch targets, though `skipping` is not reset between passes |
| Liveness.LeastClosedIsUnique | llxvm-cc/dotnetpelib/Method.cpp:396-449 | There is only one such set, so the flags are determined |
| Reachability.RunsStayLive | llxvm-cc/dotnetpelib/Method.cpp:396-449 | Whatever the instructions do to the data, a run that starts at the first instruction or at the opening of an exception block executes no instruction outside that set |
| StackEffects.TableStackIsEcma | llxvm-cc/dotnetpelib/Instruction.cpp:29-262 | The stack column of every row is what Partition III of ECMA-335 says the opcode with its bytes pushes less what it pops, but for the surplus of 1 of `cpobj` and `ldvirtftn` and of 2 of `throw`, and of what depends on a signature |
| MaxStack.StackUsageIsEcma | llxvm-cc/dotnetpelib/Instruction.cpp:280-310 | The usage of an instruction is what it pushes less what it pops, calls by their result, arguments, instance and function pointer, but for those three, a `ret` that returns a value, and `newobj` of a constructor said to return one |
| MaxStack.CalculateMaxStack | llxvm-cc/dotnetpelib/Method.cpp:450-554 | The forward scan: the error of the first inconsistency it notices, or the maximum |
| MaxStack.RejectionIsExplained | llxvm-cc/dotnetpelib/Method.cpp:450-554 | What each error says: an instruction that takes more than there is, a label referred to at two depths, or more left at the end than the method returns |
| MaxStack.ScanFindsDiscipline | llxvm-cc/dotnetpelib/Method.cpp:450-554 | For any body that has a stack discipline by ECMA-335, exception blocks entered with an empty stack, the scan holds its depth at every live instruction and records right depths for labels if and only if it counts right wherever control goes on, the stack is empty at every label met after a branch without an earlier reference, and what the code before has left is the depth wherever control does not come from there; the body is then accepted if and only if no more is left at the end than the method returns, and `maxStack_` is the greatest depth reached |
| MaxStack.DisciplinedButRejected | llxvm-cc/dotnetpelib/Method.cpp:509-523 | A concrete disciplined body the scan rejects, since a value is on the stack at such a label |
| MaxStack.ThrowIsRejected | llxvm-cc/dotnetpelib/Instruction.cpp:257 | A concrete disciplined body, `ldnull; throw`, that the scan rejects because `throw` counts as a push |
| Locals.SortByUse | llxvm-cc/dotnetpelib/Method.cpp:569 | The locals again, by falling number of uses |
| Locals.CountUses | llxvm-cc/dotnetpelib/Method.cpp:557-568 | Adds to each local's count the number of its accesses in the body |
| Locals.NumberingIsOptimalIff | llxvm-cc/dotnetpelib/Method.cpp:555-575 | For any body and any order of its locals: no injective numbering makes the accesses smaller if and only if no exchange of two or three locals between the slots below 4, below 128 and above saves a byte, stated by counts of loads, stores and addresses |
| Locals.UpTo128Locals | llxvm-cc/dotnetpelib/Method.cpp:555-575 | With at most 128 locals that is: no local from the fifth on has more loads and stores than one of the first four |
| Locals.NumberingIsOptimal | llxvm-cc/dotnetpelib/Method.cpp:555-575 | For a body that only loads and stores its locals the order by falling number of uses is optimal |
| Locals.AddressesSpoilNumbering | llxvm-cc/dotnetpelib/Method.cpp:555-575 | A concrete body with `ldloca` for which the order by number of uses is not |
| Methods.Method.OptimizeLocals | llxvm-cc/dotnetpelib/Method.cpp:555-575 | Permutes the locals, numbers them by position, sorted by the uses counted on top of those of earlier calls |
| Methods.Method.Optimize | llxvm-cc/dotnetpelib/Method.cpp:389-395 | Liveness, stack, locals and code in order: each failure with the state it leaves, or the optimized body, its `maxStack_`, the numbering it was optimized for and the flag for exception blocks |
| Methods.Method.Compile | llxvm-cc/dotnetpelib/Method.cpp:384-388 | The bytes and the clauses of the optimized body, which stays as it was, whenever its tags stand for blocks |
| Methods.MethodIsCorrect | llxvm-cc/dotnetpelib/Method.cpp:384-395 | When `Optimize` succeeds, `Compile` can be called unless the list ends in a try block, and its bytes, run with the locals in the order of the local signature, do after any number of steps what the source list does |
| Methods.OptimizedIsCorrect | llxvm-cc/dotnetpelib/Method.cpp:384-395 | The same for a list that already names slots outright, such as one optimized before, run in the new order of the locals |
| Methods.SecondOptimizeKeepsActionsIff | llxvm-cc/dotnetpelib/Method.cpp:555-575 | A second `Optimize` keeps what every instruction does if and only if each of the slots 0 to 3 that an instruction names outright holds the same local in the new order |
| Methods.SecondOptimizeIsCorrect | llxvm-cc/dotnetpelib/Method.cpp:384-395 | Then the bytes after the second call still run as the list the author wrote |
| Methods.SecondOptimizeChangesMeaning | llxvm-cc/dotnetpelib/Method.cpp:555-575 | A concrete body: after a second `Optimize` an already shortened `stloc.0` stores to another local |
| MethodBodies.Write | llxvm-cc/dotnetpelib/PEWriter.cpp:55-188 | Writes header, code and exception section and returns exactly the number of bytes written |
| MethodBodies.RoomIsExact | llxvm-cc/dotnetpelib/PEWriter.cpp:429-477 | The room the planner reserves is the number of bytes written if and only if the body has no clauses or starts on a 4-byte boundary |
| MethodBodies.ConstructedIsWellFormed | llxvm-cc/dotnetpelib/PEFile.h:1571-1585 | Every method the constructor builds from in-range values has a header choice that satisfies all reading back needs, and it is tiny if and only if section II.25.4.2 of ECMA-335 allows that |
| MethodBodies.SectionReadsBack | llxvm-cc/dotnetpelib/PEWriter.cpp:85-186 | The small or fat exception section is decoded to the same clauses if and only if its size fits the 24-bit field |
| MethodBodies.BodyReadsBack | llxvm-cc/dotnetpelib/PEWriter.cpp:55-188 | A decoder of section II.25.4 of ECMA-335 gets the stack size, code, local signature and clauses back from the bytes of a tiny or fat method |
| Tables.LargeIsExact | llxvm-cc/dotnetpelib/PEFile.h:529 | The shift in 32 bits finds that a table has 2^(16-bits) rows or more if and only if the lost high bits leave a value above 0xffff |
| Tables.LargeBelowWrap | llxvm-cc/dotnetpelib/PEFile.h:529 | Below that wrap `Large(x)` holds if and only if x times the tag scale is 2^16 or more |
| Tables.IndexReadsBack | llxvm-cc/dotnetpelib/PECor20Headers.cpp:33-65 | `Get` after `Render` gives back tag and row if and only if the coded value fits the width chosen |
| Tables.CountedUnlessOverlooked | llxvm-cc/dotnetpelib/PECor20Headers.cpp:66-133 | Of the tables an index can refer to, `HasIndexOverflow` asks the size of all but the listed ones |
| Tables.ExistingRowFits | llxvm-cc/dotnetpelib/PECor20Headers.cpp:66-133 | An index to an existing row of a table that is asked always has the width it needs |
| Tables.OverlookedDoesNotFit | llxvm-cc/dotnetpelib/PECor20Headers.cpp:82-97 | For every overlooked table: its first 2^16 / scale row numbers fit an index and no later one does, however many rows it has, while the tables that are asked are small |
| Tables.RowReadsBack | llxvm-cc/dotnetpelib/PECor20Headers.cpp:134-707 | A row of any table, rendered column by column, is got back by `Get`, with whatever bytes behind it |
| Tables.RowBytes | llxvm-cc/dotnetpelib/PECor20Headers.cpp:134-707 | All rows of a class take the same room, whatever their values |
| TableFormats.SchemaIsStandardIff | llxvm-cc/dotnetpelib/PECor20Headers.cpp:134-707 | For every class of rows the columns written are the fields of its table in section II.22 of ECMA-335, in order, with tags and at the widths for the index sizes; for `ExportedType` if and only if type definitions have wide indexes |
| TableFormats.RowIsStandard | llxvm-cc/dotnetpelib/PECor20Headers.cpp:134-707 | A reader of fields by those widths finds in the bytes of any row each named field with the number the row has for it |
| Tables.PaddingKeepsWidth | llxvm-cc/dotnetpelib/PEReader.cpp:437-444 | The reader, which sees padded sizes, chooses the writer's width for a heap if and only if it is not of 65533 to 65535 bytes |
| Tables.PaddedSizesSameWidths | llxvm-cc/dotnetpelib/PEReader.cpp:437-444 | With no heap of such a size the reader chooses all the widths of the writer |
| Tables.NearLimitDiffers | llxvm-cc/dotnetpelib/PEReader.cpp:437-444 | In that range the two widths really differ |
| TableStream.TableStore.AddTableEntry | llxvm-cc/dotnetpelib/PEWriter.cpp:221-226 | Files a row where its `TableIndex` says and returns its number; the tables stay of one class each if and only if the row is neither a generic parameter constraint nor an exported type |
| TableStream.WriteTables | llxvm-cc/dotnetpelib/PEWriter.cpp:849-882 | Header, counts and rows of all tables in order, padded to 4 bytes |
| TableStream.ReadTables | llxvm-cc/dotnetpelib/PEReader.cpp:422-472 | The loops over a moving pointer compute the parsing function: rows, unknown table, or truncation |
| TableStream.MaskBit | llxvm-cc/dotnetpelib/PEWriter.cpp:849-882 | Bit i of the 64-bit mask is set if and only if table i has rows |
| TableStream.RowsWidth | llxvm-cc/dotnetpelib/PEWriter.cpp:526-539 | The rows of one class take their number times the width of one row |
| TableStream.TablesReadBack | llxvm-cc/dotnetpelib/PEReader.cpp:422-472 | Reading the written stream gives back the same tables if and only if every row stands in the table of its class |
| TableFormats.HeaderIsStandard | llxvm-cc/dotnetpelib/PEWriter.cpp:500-510 | The stream starts with version 2.0, a bit for each heap whose indexes are wide, the mask of the tables with rows, and the standard's mask of sorted tables with two more |
| TablePositions.CountIsFound | llxvm-cc/dotnetpelib/PEWriter.cpp:849-882 | The count of each table with rows stands behind the header and the counts of the tables before it |
| TablePositions.RowIsFound | llxvm-cc/dotnetpelib/PEWriter.cpp:849-882 | At the position computed from the counts and the standard's field widths stands the row asked for, and in it every field with its number |
| MetadataRoot.WriteMetadataHeaders | llxvm-cc/dotnetpelib/PEWriter.cpp:826-848 | The root and five stream headers on a 4-byte boundary |
| MetadataRoot.GetStream | llxvm-cc/dotnetpelib/PEReader.cpp:327-355 | The scan over stream headers by name, as a function of the bytes |
| MetadataRoot.StreamIsFound | llxvm-cc/dotnetpelib/PEReader.cpp:327-355 | `GetStream` finds each of the five written streams under its own name, with its address and size |
| Layout.PlanMethods | llxvm-cc/dotnetpelib/PEWriter.cpp:429-477 | Plans for each method the address of the position where it will be emitted |
| Layout.PlanTables | llxvm-cc/dotnetpelib/PEWriter.cpp:526-539 | The room planned is that of the counts and, table by table, of the first row times the number of rows |
| Layout.StringsPlannedIff | llxvm-cc/dotnetpelib/PEWriter.cpp:526-541 | For any store filled by `AddTableEntry` the plan reserves the emitted room plus a drift, which counts the guests in two tables times a difference of row widths; the first heap is planned where it is emitted if and only if the padding swallows the drift |
| Layout.PlanIsInSyncIff | llxvm-cc/dotnetpelib/PEWriter.cpp:541-674 | All later addresses are right if and only if that of the first heap is |
| Layout.HomogeneousIsPlanned | llxvm-cc/dotnetpelib/PEWriter.cpp:526-539 | With one class of rows per table the plan is right |
| Layout.MixedTableShiftsStrings | llxvm-cc/dotnetpelib/PEFile.h:1548 | With a generic parameter and a constraint in one table the strings are planned 4 bytes too far |
| Layout.MistakesCancel | llxvm-cc/dotnetpelib/PEFile.h:1482 | With both tables mixed the drifts can cancel, so neither table need be planned right for the plan to be |
| Layout.PlanHeaps | llxvm-cc/dotnetpelib/PEWriter.cpp:541-565 | Offsets and padded sizes of the four heaps from the positions of their bytes |
| Layout.PlanTail | llxvm-cc/dotnetpelib/PEWriter.cpp:567-674 | Import directory, entry stub, signature space and both sections from the position where the heaps end |
| PEWriting.PEWriter.CalculateObjects | llxvm-cc/dotnetpelib/PEWriter.cpp:335-674 | For any contents every planned address is that of the position at which the parts before it will end, taking the first heap to begin where it is planned; the plan agrees with the positions emitted if and only if that heap does; only the method addresses change, in the methods and in their `MethodDef` rows |
| PEWriting.PEWriter.WriteMethods | llxvm-cc/dotnetpelib/PEWriter.cpp:800-825 | Every method with code is emitted at its own alignment from the start of the file |
| PEWriting.PEWriter.WriteMetadata | llxvm-cc/dotnetpelib/PEWriter.cpp:826-913 | Root, tables and heaps are emitted one behind the other at their positions |
| PEWriting.PEWriter.WriteImports | llxvm-cc/dotnetpelib/PEWriter.cpp:914-940 | Import directory and names stand at their positions |
| PEWriting.PEWriter.WriteFile | llxvm-cc/dotnetpelib/PEWriter.cpp:688-742 | Every part of the file is emitted at its position, and all of them stand exactly where the plan has them if and only if the first heap does; nothing is written without an entry point or a library |
| PEReading.RVAToFileLocation | llxvm-cc/dotnetpelib/PEReader.cpp:264-274 | The loop over sections finds the location of the first section that has the address |
| PEReading.RootIsFound | llxvm-cc/dotnetpelib/PEReader.cpp:275-326 | From the first byte of a written file the reader gets to the metadata root |
| PEReading.StreamsAreFound | llxvm-cc/dotnetpelib/PEReader.cpp:327-355 | Each stream found by name lies, through its planned address, exactly where it was emitted, with its padded size |
| PEReading.MethodIsFound | llxvm-cc/dotnetpelib/PEReader.cpp:264-274 | The address of each method leads to bytes that decode to its own body |
| PEReading.FileReadsBack | llxvm-cc/dotnetpelib/PEReader.cpp:422-472 | When no heap has 65533 to 65535 bytes, loading the tables from a written file gives the writer's tables if and only if every row stands in the table of its class |
| PEReading.RowsLeadToBodies | llxvm-cc/dotnetpelib/PECor20Headers.cpp:223-250 | From the bytes alone, when tables read back: the `MethodDef` row of a method with code, loaded, has the address at which the body of just that method is decoded, and every other row has address 0 |
| PEReading.ImportsAreFound | llxvm-cc/dotnetpelib/PEWriter.cpp:914-951 | The import and entry point addresses lead to the start function's name, its library and the stub |
| FileHeaders.HeadersAreStandard | llxvm-cc/dotnetpelib/PEWriter.cpp:335-421 | Every field of the PE headers, the directories and the CLI header has its value at the offset of sections II.25.2 and II.25.3.3 of ECMA-335, the flags and the entry point token among them |
| FileHeaders.AddressesLead | llxvm-cc/dotnetpelib/PEWriter.cpp:755-800 | The addresses in those fields lead, through the section table, to the entry stub, the imports, the fixup, the CLI header, the metadata root and the room for the signature |
| FileHeaders.ImportsLead | llxvm-cc/dotnetpelib/PEWriter.cpp:914-940 | The words of the import directory lead to the library's name and to the function's hint and name |
| FileHeaders.FixupIsStandard | llxvm-cc/dotnetpelib/PEWriter.cpp:1095-1110 | The one fixup is of type 3 and for the operand of the jump in the stub |
| FileHeaders.StubIsStandard | llxvm-cc/dotnetpelib/PEWriter.cpp:941-951 | The stub jumps through the address that the image base and the import address directory add up to |
| FileHeaders.RootHeaderIsStandard | llxvm-cc/dotnetpelib/PEWriter.cpp:826-848 | Version, name and the five stream headers stand at the offsets of sections II.24.2.1 and II.24.2.2 of ECMA-335 |
| PEReading.IatAgrees | llxvm-cc/dotnetpelib/PEWriter.cpp:771-782 | The word of the import address table is the address in the directory if and only if the imports do not start 4 bytes after a multiple of 16 |
| PEReading.SmallImageIsRepresentable | llxvm-cc/dotnetpelib/PEWriter.cpp:567-674 | An image below 4 GB has a plan all of whose numbers fit the header fields |
| Heaps.Pool.Ensure | llxvm-cc/dotnetpelib/PEWriter.cpp:190-200 | After it there is room, and nothing that was held has changed; a new buffer exactly when the old was too small |
| Heaps.StringPool.HashString | llxvm-cc/dotnetpelib/PEWriter.cpp:237-250 | Returns the index of a known string, or appends it with its zero byte |
| Heaps.ReadFromString | llxvm-cc/dotnetpelib/PEReader.cpp:356-373 | Copies up to the zero byte or one byte less than the buffer has |
| Heaps.StringsReadBack | llxvm-cc/dotnetpelib/PEReader.cpp:356-373 | After any run of `HashString` every index ever returned reads back its string if and only if the string has no zero byte |
| Heaps.IndexesTellStringsApart | llxvm-cc/dotnetpelib/PEWriter.cpp:237-250 | Over any run two calls return the same index if and only if their strings are equal |
| Heaps.BlobPool.HashBlob | llxvm-cc/dotnetpelib/PEWriter.cpp:297-324 | Appends a compressed length and the bytes, cut to what 29 bits can say |
| Heaps.BlobsReadBack | llxvm-cc/dotnetpelib/PEReader.cpp:374-408 | After any run of `HashBlob` every index reads back its own blob as kept, which is the whole blob if and only if it is shorter than 2^29 bytes |
| Heaps.OnlyFirstGuidIsFound | llxvm-cc/dotnetpelib/PEReader.cpp:409-421 | `ReadFromGUID` looks at the position of the GUID for the first one and for no other |
| Signatures.ConvertToBlob | llxvm-cc/dotnetpelib/NetSignature.cpp:565-599 | The blob is the concatenation of the compressed integers of the work area |
| Compression.IndexLoads | llxvm-cc/dotnetpelib/NetSignature.cpp:165-187 | `LoadIndex` consumes exactly the bytes of one compressed integer, whatever follows, and gives it back cut to 29 bits, so unchanged if and only if it is below 2^29 |
| Signatures.SignatureGenerator.EmbedType | llxvm-cc/dotnetpelib/NetSignature.cpp:56-164 | Fills the shared work area from the offset on with the encoding of the type and touches nothing else |
| Signatures.SignatureGenerator.CoreMethodAt | llxvm-cc/dotnetpelib/NetSignature.cpp:600-624 | The same for a method signature, mutually recursive through function pointers |
| Signatures.GetType | llxvm-cc/dotnetpelib/NetSignature.cpp:442-564 | The reader with its moving start computes the recursive parser |
| Signatures.TypeFromMethod | llxvm-cc/dotnetpelib/NetSignature.cpp:412-441 | The same for method signatures |
| Signatures.TypeReadsBack | llxvm-cc/dotnetpelib/NetSignature.cpp:442-564 | The blob of any embeddable type, recursively through function pointers, parses to the type as the reader sees it and to exactly the bytes behind it |
| Signatures.MethodReadsBack | llxvm-cc/dotnetpelib/NetSignature.cpp:412-441 | The same for the signature of a non-vararg method with fewer than 128 parameters |
| Signatures.SeenIffFaithful | llxvm-cc/dotnetpelib/NetSignature.cpp:442-564 | The reader sees a type as it was if and only if neither it nor a type inside it is a by-ref array or a pointer to a generic variable |
| SignatureGrammar.TypeIsWritten | llxvm-cc/dotnetpelib/NetSignature.cpp:56-164 | A decoder of section II.23.2 of ECMA-335, with its element codes as literals, reads from the encoding of any embeddable type just that type: 0x11 before its token if and only if its class is a value type, 0x12 otherwise, and the standard's code for every other element |
| SignatureGrammar.SigDecodes | llxvm-cc/dotnetpelib/NetSignature.cpp:600-624 | The same for method signatures: calling convention, counts, result and parameters |
| EdgeLowering.JVMWriter.PrintPHICopy | llxvm-cc/backend-jvm/jvm_branch.cpp:46-56 | Emits one load and store for each PHI whose incoming value is not undef, in order |
| EdgeLowering.JVMWriter.RewriteBranch | llxvm-cc/backend-jvm/jvm_branch.cpp:267-302 | The inverted branch over a goto, with a label of its own that was never used before |
| EdgeLowering.JVMWriter.PrintBranchTo | llxvm-cc/backend-jvm/jvm_branch.cpp:64-69 | Copies and a goto |
| EdgeLowering.JVMWriter.PrintBranchNoElse | llxvm-cc/backend-jvm/jvm_branch.cpp:88-95 | Copies first, then the conditional branch |
| EdgeLowering.JVMWriter.PrintBranchOn | llxvm-cc/backend-jvm/jvm_branch.cpp:80-116 | The emitted code of a two-way branch, with a trampoline exactly when the true block has PHIs, and counters that keep all internal labels unique |
| EdgeLowering.CopiesAreParallelIff | llxvm-cc/backend-jvm/jvm_branch.cpp:46-56 | From every state the copies give each PHI its incoming value if and only if no copy overwrites a PHI that a later copy reads |
| EdgeLowering.ConditionalLeads | llxvm-cc/backend-jvm/jvm_branch.cpp:267-302 | Rewritten or not, the branch goes to its label when the condition holds and on otherwise, for the condition and its inverse |
| EdgeLowering.TwoTargetsLead | llxvm-cc/backend-jvm/jvm_branch.cpp:80-116 | Running the code leads to the right block with the copies of that edge done and nothing else changed |
| EdgeLowering.NoElseLeads | llxvm-cc/backend-jvm/jvm_branch.cpp:88-95 | The same for the form without a false block, which copies on both ways; the backend never asks for this form |
| EdgeLowering.EndLeads | llxvm-cc/backend-jvm/jvm_branch.cpp:64-134 | From the end of a block, with one successor or two, the first block entered is that of the edge taken, with the copies of that edge done one after the other |
| EdgeLowering.EdgeKeepsMeaningIff | llxvm-cc/backend-jvm/jvm_branch.cpp:64-134 | For an unconditional branch or either way of a conditional one, with or without rewriting: from all values the first block entered is the destination, every PHI holding its incoming value from before the branch and every other register unchanged, if and only if that edge itself loses no copy |
| LoopPrinting.EveryBlockOnce | llxvm-cc/backend-jvm/jvm_branch.cpp:218-240 | Over any loop forest with header-first block lists each block of the function is printed exactly once, under exactly one label |
| LoopPrinting.EntryIsFirst | llxvm-cc/backend-jvm/jvm_function.cpp:291-303 | The first thing printed is the label and the body of the first block, unless that block is inside a loop it does not head |
| LoopPrinting.JumpsAreCounted | llxvm-cc/backend-jvm/jvm_function.cpp:414-425 | Printing makes exactly as many `setjmp` calls as were counted before |
| WholeFunction.BlockStands | llxvm-cc/backend-jvm/jvm_function.cpp:291-303 | In the output of a whole function every block stands behind the one label it has, its instructions first and its branch last |
| WholeFunction.EntryStands | llxvm-cc/backend-jvm/jvm_function.cpp:291-303 | So execution starts at the label of the entry block, with its instructions and its branch behind it |
| WholeFunction.EveryEdgeKeepsMeaningIff | llxvm-cc/backend-jvm/jvm_branch.cpp:64-134 | In the output of a whole function, over any loop forest, the branch at the end of every block, unconditional or not, leads straight to the label of the right block with the copies of the edge taken, and keeps the meaning of that edge from all values if and only if it loses no copy, whatever the other edge does |
| ValueSlots.SlotsHoldAnythingIff | llxvm-cc/backend-jvm/jvm_function.cpp:312-319 | The local variables can hold any values at once if and only if no two values share a slot, 64-bit values taking two |
| ValueSlots.StepsFollow | llxvm-cc/backend-jvm/jvm_loadstore.cpp:57-123 | With slots apart, any code run on slots does step by step what it does on registers, and touches no slot that is no value's |
| ValueSlots.EveryEdgeMovesSlotsIff | llxvm-cc/backend-jvm/jvm_branch.cpp:64-134 | In the output of a whole function, with the slots of its values, the edge taken at the end of every block moves the incoming values into the slots of the PHIs and changes no other slot, from all contents if and only if it loses no copy |
| ValueSlots.SwapIsLost | llxvm-cc/backend-jvm/jvm_branch.cpp:46-69 | A one-block loop whose back edge is meant to swap two values: the printed code does not |
| FunctionSlots.FunctionWriter.GetLocalVarNumber | llxvm-cc/backend-jvm/jvm_function.cpp:312-319 | A value keeps its slot; a new one gets the next, two wide for 64 bits, apart from all others |
| FunctionSlots.FunctionWriter.PrintBasicBlock | llxvm-cc/backend-jvm/jvm_function.cpp:141-146 | Each `setjmp` call of a block takes the next slot |
| FunctionSlots.FunctionWriter.PrintLoop | llxvm-cc/backend-jvm/jvm_branch.cpp:218-240 | Prints the items of the loop and takes the slots of its jumps in order |
| FunctionSlots.FunctionWriter.PrintFunctionBody | llxvm-cc/backend-jvm/jvm_function.cpp:291-303 | The same for the blocks of a function |
| FunctionSlots.FunctionWriter.PrintCatchJump | llxvm-cc/backend-jvm/jvm_function.cpp:326-351 | Scans the slots right below the register it takes |
| FunctionSlots.FunctionWriter.PrintFunction | llxvm-cc/backend-jvm/jvm_function.cpp:358-470 | Each argument has the slot at which the JVM passes it, the sum of the widths of those before it; the pointer to variable arguments has the next, and all other values lie above; the slots initialised, used by `setjmp` and scanned after a `longjmp` are the same consecutive ones, all values lie apart below them, and the printed limit is just above |
| Gep.AlignIsLeastIff | llxvm-cc/backend-jvm/jvm_instruction.cpp:35-38 | The result is the least multiple at or above the offset if and only if that multiple is below 2^32 |
| Gep.StructOffset | llxvm-cc/backend-jvm/jvm_instruction.cpp:246-303 | The loop over fields computes the offset with unsigned wrap |
| Gep.LayoutIsSound | llxvm-cc/backend-jvm/jvm_instruction.cpp:260-272 | The first field is at 0; fields are aligned, increasing and do not overlap, and each is at the least such position |
| Gep.LoopComputesLayout | llxvm-cc/backend-jvm/jvm_instruction.cpp:260-272 | The loop computes this layout as long as it stays below 2^32 |
| Gep.GepPrinter.PrintGepInstruction | llxvm-cc/backend-jvm/jvm_instruction.cpp:246-303 | Emits the base and the code of each index in order |
| Gep.AddressIsSum | llxvm-cc/backend-jvm/jvm_instruction.cpp:246-303 | Running the code for any index list leaves the base plus the sum of the scaled indexes modulo 2^32 |
| Gep.PathsAgree | llxvm-cc/backend-jvm/jvm_instruction.cpp:280-300 | The constant paths for zero, negative and positive do what the path for a variable does |
| ObjectText.NameReadsIff | llxvm-cc/dotnetpelib/PELib.cpp:652-671 | `UnformatName` gives back a name written by `FormatName` if and only if it is shorter than 65536 |
| ObjectText.IntReads | llxvm-cc/dotnetpelib/PELib.cpp:572-598 | An integer is read back if and only if it fits 64 bits, stopping at the next character that is no digit |
| ObjectText.OperandReads | llxvm-cc/dotnetpelib/Operand.cpp:168-302 | The text of an operand gives it back and leaves what follows |
| ObjectText.OperandKinds | llxvm-cc/dotnetpelib/Operand.cpp:168-212 | Behind the opening mark of an operand stands the digit of its kind: 0, 2, 4 or 5 |
| ObjectText.TagSides | llxvm-cc/dotnetpelib/Instruction.cpp:398-414 | An exception tag is its kind, then 1 where a block opens and 0 where it closes |
| ObjectText.InstrReads | llxvm-cc/dotnetpelib/Instruction.cpp:398-527 | The same for an instruction with its operand, exception tag, or switch labels |
| ObjectText.ListReads | llxvm-cc/dotnetpelib/CodeContainer.cpp:43-73 | The parser rebuilds every writable list and stops right behind its closing mark, through the repeated look for an opening and then a closing mark |
| ObjectStream.ObjectWriter.ObjOut | llxvm-cc/dotnetpelib/CodeContainer.cpp:43-52 | Writes the text of the list, and nothing at all for an empty one |
| ObjectStream.ObjectWriter.InstrOut | llxvm-cc/dotnetpelib/Instruction.cpp:398-443 | Writes the text of an instruction |
| ObjectStream.ObjectWriter.OperandOut | llxvm-cc/dotnetpelib/Operand.cpp:168-212 | Writes the text of an operand |
| ObjectStream.ObjectReader.ReadInt | llxvm-cc/dotnetpelib/PELib.cpp:572-598 | The cursor reads one character too many and steps back; the value wraps at 64 bits at every digit |
| ObjectStream.ObjectReader.ReadName | llxvm-cc/dotnetpelib/PELib.cpp:652-665 | Takes as many characters as the four digits say |
| ObjectStream.ObjectReader.ObjBegin | llxvm-cc/dotnetpelib/PELib.cpp:599-618 | Looks for an opening mark from the cursor, or again from where the last look began |
| ObjectStream.ObjectReader.ObjEnd | llxvm-cc/dotnetpelib/PELib.cpp:619-636 | The same for a closing mark |
| ObjectStream.ObjectReader.ReadOperand | llxvm-cc/dotnetpelib/Operand.cpp:213-302 | The cursor moves as the operand parser says |
| ObjectStream.ObjectReader.ReadInstr | llxvm-cc/dotnetpelib/Instruction.cpp:444-527 | The cursor moves as the instruction parser says |
| ObjectStream.ObjectReader.ReadList | llxvm-cc/dotnetpelib/CodeContainer.cpp:53-73 | The cursor moves as the list parser says, so `ListReads` is about this loop |

## Left out

- Floating point operands, the special cases of `OptimizeLDARG` for generic `mvar` types, and the three misencoded opcodes, which no decoder can tell apart: not in the lists the assembler theorems are about.
- One `Instruction` object standing at two positions: instructions are values held in a sequence, so such aliasing is not captured. A `Method` has its code container as a field instead of inheriting from it.
- Methods.MethodIsCorrect: says that the source list and the bytes run alike for methods whose operands fit their opcodes and whose switch labels exist, because the code checks branch labels only and renders a missing switch label through a null pointer.
- Exceptions in a run: `throw`, and `leave` through a `finally` handler, are data instructions and branches in the runs compared; which handler the clauses dispatch to is not part of the runs.
- CodeContainers.CodeContainer.LoadLabels: leaves the label map unspecified when it throws, as the method is abandoned then.
- CodeContainers.CodeContainer.ValidateSEHFilters: rejects every filter because it tests the end tag itself; it is modelled as it is, so filters occur only in the flattening result.
- SehTags.ValidateSEHTags: a `try` end as the last tag, where the code reads one past its vector, is an error in the model.
- SehClauses.CompileSEH: does not model a filter whose body holds a block or whose handler is missing, which validation rejects together with every other filter, nor the read past the tags of a list that ends in a try block.
- MaxStack.ScanFindsDiscipline: starts from a discipline; that acceptance implies one does not hold, since the scan skips checks after branches.
- Writing the strong-name hash (its space is planned and left zero), version resources, the wide string heap's encoding (its bytes are given), and static data placement with the `FieldRVA` rows that depend on it: contents are given values.
- PEReading.RootIsFound: models the header fields the reader tests; the others are in `HeadersAreStandard`, for values that fit their 4 bytes.
- TableFormats.RowIsStandard: is about values that fit their columns and a GUID heap below 2^32 bytes, as every row the library builds has them.
- Reads past the end of a buffer, which the C++ does not check, are a failure in the readers of the model.
- Signatures.GetType: rebuilds classes by token instead of looking them up in the assembly, reads uninitialised pointer levels of type variables as 0, and does not rebuild multi-dimensional arrays, generic instances, `void` behind a class index, or vararg sentinels.
- Signatures.TypeReadsBack: needs arrays of one dimension at most, and method signatures with fewer than 128 parameters and generic parameters, since the reader takes these counts as single bytes.
- ValueSlots.EveryEdgeMovesSlotsIff: starts from slots that hold a value each, as the zeros stored at the start of a function leave them unless `jvm_skip_locals_init` is set. Stores of 1, 8 and 16 bits truncate first, which changes no value of that width.
- LLVM's PHI lists, loop forest, block bodies, type sizes and alignments are inputs; block bodies are the events that matter to slots and labels. Packed structs are outside, and `switch`, `select`, `invoke` and indirect branches are not lowered here.
- FunctionSlots.FunctionWriter.PrintFunction: takes the values that get slots as one list in the order they are met, among them the parameter that a byte-swap call adds; the stack depth guess and the debugging directives are not modelled.
- The Krakatau form of labels and of `wide` stores, and the wrap of the 64-bit counters that make labels unique.
- Heaps.Pool.Ensure: models the growth rule with unbounded sizes, not a failing allocation.
- ObjectText.ListReads: is about operands that are none, integer, string or label names with lengths of four hexadecimal digits and integers of 64 bits; value and real operands and the type of a catch tag are not read. Buffers of 256 digits and the end of the file inside a number are an error.
- Drivers, option parsing, file searching, `RSAEncoder`, `DLLExportReader` and `CreateGUID`: plumbing or foreign code. `llxvm-cc/backend-cil` repeats the JVM writer.
