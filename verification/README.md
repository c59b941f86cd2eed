# Proofs about roe

This project models the algorithmic core of roe, a reader and disassembly browser for
binaries, and proves what that core is for: that parsers invert the formats they read, that
loops end, that fast lookups agree with plain scans, and that a diff is a shortest one.

The model follows the program file by file.

* `RustV0*.dfy`: the Rust v0 demangler. `RustV0Demangler` is the object with its counters,
  flag and positions; `RustV0Parse` says as functions what its routines do; `RustV0Mangle`
  holds trees of the grammar, their mangled and displayed forms and their cost; an
  implementation with a disambiguator costs more than there is, since the code gives up on it. The round
  trip covers backreferences in any direction: a tree records where a backreference points
  and what it stands for. A tree is well formed when names that start with a digit or an
  underscore carry their separator, as the grammar asks, and no empty identifier stands
  right before a digit or an underscore, which the code misreads (`IdentifierReadExactly`
  says exactly when). Every routine terminates by the step budget.
* `Cursor.dfy`, `Leb128.dfy`, `LineProgram.dfy`, `LineLoop.dfy`, `LineTable.dfy`,
  `LineOpcodes.dfy`, `SourceMap.dfy`: the DWARF byte cursor, variable-length integers, one
  turn of the line-number machine, its loop, an encoder of row tables, the opcodes that the
  encoder has no use for, and the loop over units. The loop
  does not always end; it does exactly when no two turns start at one place. In version 5
  the file register starts at 0, as the code has it (section 6.2.2 of DWARF 5 has 1).
  Registers and sums wrap at 64 bits as the code computes them on the usual machines.
* `LineDiff.dfy`, `FunctionDiff.dfy`, `DiffReport.dfy`, `TextOrder.dfy`: the per-function
  line diff with its in-place table, and the function-level diff with rename matching.
* `ControlFlow.dfy`: block leaders and branch-span depth.
* `ElfReader.dfy`, `ElfFile.dfy`, `ElfSymbols.dfy`, `ElfLayout.dfy`, `ElfRoundTrip.dfy`,
  `ElfAcceptance.dfy`: the ELF reader with its range checks. Reads the code leaves unchecked are `.value`
  projections whose preconditions are proved where they stand. `ElfLayout` writes the records out, and
  `ElfRoundTrip` whole images; both prove that the reader takes them back. `ElfAcceptance`
  says on the bytes which files are accepted.
* `Strings.dfy`, `Resolver.dfy`, `IndexBuilder.dfy`, `IndexMeaning.dfy`, `Annotations.dfy`, `Sorting.dfy`:
  string extraction, the symbol and relocation index, the lookups and the annotations.
  Sorting is any ordered permutation.
* `JsonString.dfy`: JSON escaping against an RFC 8259 string reader.
* `Common.dfy`, `Arithmetic.dfy`, `Slices.dfy`: shared types and facts.

Methods are proved against functions, and the lemmas speak about those functions; where a
promise is false of the code there is a concrete input and the exact condition
(`ClosureNameIsLost` and `IdentifierReadExactly`, `SecondBlockIsLost` and
`ImplDisambiguatorIsLost` with `DemangleMangled`, `LapsOfRows` and `EndsIffNoRevisit`,
`ClashingInstructions` and `SummaryAgreesIffNoClash`, `RelocatableDisagrees` and
`LookupAgreesIffNoneHidden`, `LastAddressMissed`, `EmptyInstructionTakes` and
`ReferenceIffRelocationInBytes`, `LargeFileTakesAnotherPath` and `TagReadsBackIffSmall`).
Foreign calls and input or output are parameters: the C++ demangler, the reading of source
files, the parse of one line-table unit in the unit loop.

## Model

| member | source | states |
|---|---|---|
| `RustV0Theorems.DemangleMangled` | src/resolver/resolver.cpp:904-920 | A whole name `_R`, version, mangled well-formed tree, anything that does not run into a trailing empty identifier: displayed as the tree exactly when the tree fits the step and depth budget, and as the name itself otherwise |
| `RustV0Theorems.RunMangled` | src/resolver/resolver.cpp:493-500 | The same for the run inside one demangler object, after an optional encoding version |
| `RustV0Theorems.PlainRoundTrip` | src/resolver/resolver.cpp:601-714 | A well-formed tree without backreferences is demangled at any position, before any text that does not run into a trailing empty identifier, from any counters: its text, the end of its encoding and its exact step cost, or failure when it does not fit |
| `RustV0Theorems.BackreferencesAreTransparent` | src/resolver/resolver.cpp:663-675 | Two encodings of one tree with backreferences in whatever places show the same text, as long as each fits the budget it is given |
| `RustV0Theorems.ExpandShowsSamePath` | src/resolver/resolver.cpp:663-675 | Replacing every backreference of a path by what it stands for leaves the displayed text alone |
| `RustV0Theorems.ExpandShowsSameType` | src/resolver/resolver.cpp:877-889 | The same for types |
| `RustV0Theorems.IdentifierReadExactly` | src/resolver/resolver.cpp:570-599 | An identifier is read back with its name, end and cost if and only if it is not an empty one, written as a bare `0`, in front of a digit or an underscore |
| `RustV0Theorems.ClosureNameIsLost` | src/resolver/resolver.cpp:584-591 | A concrete name that the grammar allows and the demangler gives up on: `foo` in an unnamed item of crate `a` |
| `RustV0Theorems.ImplDisambiguatorIsLost` | src/resolver/resolver.cpp:676-710 | A name with an implementation whose path carries a disambiguator, as the grammar allows, is shown as it is, however short |
| `RustV0Theorems.PathBeyondBudget` | src/resolver/resolver.cpp:676-713 | A tree that holds such an implementation, or refers back to one, fits no budget |
| `RustV0Theorems.SecondBlockIsLost` | src/resolver/resolver.cpp:676-688 | A concrete one: the method `f` of `S` in the second implementation block of crate `a` |
| `RustV0Theorems.RefusedAtTheStart` | src/resolver/resolver.cpp:601-714 | On every body no path and no type is read past 20000 steps or 256 levels, from a letter that starts none, or from a backreference without a number or out of the body |
| `RustV0Theorems.OpenListRefused` | src/resolver/resolver.cpp:642-661 | No argument or element list is read that the body ends in |
| `RustV0Theorems.IdentifierRefused` | src/resolver/resolver.cpp:570-599 | No identifier is read without a length or with one that leaves the body |
| `RustV0Theorems.WrappedLengthTaken` | src/resolver/resolver.cpp:584-599 | A length that takes the 64-bit position round is accepted when it ends up inside the body: the name is all that is left |
| `RustV0Theorems.ConstShowsWhatFollows` | src/resolver/resolver.cpp:733-756 | On every body a value is shown as what stands between its type, or the sign behind it, and the next underscore or the end of the body |
| `RustV0RoundTrip.PathRoundTrip` | src/resolver/resolver.cpp:601-714 | For every path tree whose backreferences point at occurrences of their targets, in any direction: text, end position and step count are those of the tree if it fits the budget, and the routine fails otherwise |
| `RustV0RoundTrip.TypeRoundTrip` | src/resolver/resolver.cpp:758-901 | The same for type trees |
| `RustV0RoundTrip.BasicRoundTrip` | src/resolver/resolver.cpp:768-797 | Each basic type, written with its letter of RFC 2603, is shown by its Rust name |
| `RustV0RoundTrip.OnlyBasicLetters` | src/resolver/resolver.cpp:768-797 | No other letter is one of a basic type |
| `RustV0RoundTrip.ConstRoundTrip` | src/resolver/resolver.cpp:733-756 | The same for constants: the type is read and dropped, a sign is passed over and the digits are shown |
| `RustV0RoundTrip.ArgRoundTrip` | src/resolver/resolver.cpp:716-731 | The same for one generic argument: lifetime, constant or type |
| `RustV0RoundTrip.ArgsRoundTrip` | src/resolver/resolver.cpp:642-661 | The argument loop shows the arguments of any list, separated, stops behind its `E`, and spends one step a turn besides what the arguments cost |
| `RustV0RoundTrip.TypesRoundTrip` | src/resolver/resolver.cpp:851-876 | The tuple loop does so for the elements of a tuple |
| `RustV0RoundTrip.PathRefRoundTrip` | src/resolver/resolver.cpp:663-675 | A path backreference shows its target and stops just behind its base-62 number |
| `RustV0RoundTrip.TypeRefRoundTrip` | src/resolver/resolver.cpp:877-889 | A type backreference shows its target and stops just behind its base-62 number |
| `RustV0RoundTrip.Base62RoundTrip` | src/resolver/resolver.cpp:526-557 | The base-62 reader inverts the base-62 writer for every number, up to 64-bit wrap-around, and stops behind the underscore |
| `RustV0RoundTrip.DecimalRoundTrip` | src/resolver/resolver.cpp:559-568 | The decimal reader inverts the decimal writer for every number, up to 64-bit wrap-around |
| `RustV0RoundTrip.IdentRoundTrip` | src/resolver/resolver.cpp:570-599 | Identifiers with or without disambiguator, punycode mark and separator come back as their names |
| `RustV0Budget.PathRepeats` | src/resolver/resolver.cpp:601-609 | What a path shows and costs depends on the place alone: from other counters, no deeper and with steps enough, the same result |
| `RustV0Budget.TypeRepeats` | src/resolver/resolver.cpp:758-766 | The same for types |
| `RustV0Budget.BackreferenceShowsTarget` | src/resolver/resolver.cpp:663-675 | On every body, well formed or not: a backreference to a place where a path was read shows the text read there, ends behind its own number and costs one step more |
| `RustV0Budget.TypeBackreferenceShowsTarget` | src/resolver/resolver.cpp:877-889 | The same for types |
| `RustV0Output.OutputBound` | src/resolver/resolver.cpp:493-515 | Whatever the body, the text is at most 20000 times the body length and a constant |
| `RustV0Output.PathOutput` | src/resolver/resolver.cpp:601-714 | Each step spent pays for at most one body length of text and a constant, however backreferences jump |
| `RustV0Parse.Path` | src/resolver/resolver.cpp:601-609 | Every entry spends a step, the count never passes the limit by more than one, and the position stays within one of the body; the definition terminates by the budget on every input |
| `RustV0Parse.Type` | src/resolver/resolver.cpp:758-766 | The same for types |
| `RustV0Parse.GenericArgs` | src/resolver/resolver.cpp:642-661 | A turn of the argument loop, wherever it starts, spends a step at least; a finished loop stays within budget and within one of the body |
| `RustV0Parse.TupleElements` | src/resolver/resolver.cpp:854-875 | The same for the tuple loop |
| `RustV0Parse.Identifier` | src/resolver/resolver.cpp:570-599 | Spends exactly one step and ends inside the body, also where the length wraps 64 bits |
| `RustV0DemanglerObject.RustV0Demangler.Budget` | src/resolver/resolver.cpp:509-515 | One step more; fails exactly above 20000 steps or 256 levels, and sets the flag exactly then |
| `RustV0DemanglerObject.RustV0Demangler.ParseBase62` | src/resolver/resolver.cpp:526-557 | The loop reads exactly the base-62 number of its specification and sets the flag exactly when it refuses |
| `RustV0DemanglerObject.RustV0Demangler.ParseDecimal` | src/resolver/resolver.cpp:559-568 | The loop reads exactly the decimal run, with wrap-around, and never sets the flag |
| `RustV0DemanglerObject.RustV0Demangler.ParseIdentifier` | src/resolver/resolver.cpp:570-599 | Entered with the depth between 0 and 257; flag set exactly when false is returned, depth as before, text appended and position moved as specified |
| `RustV0DemanglerObject.RustV0Demangler.ParsePath` | src/resolver/resolver.cpp:601-609 | The same for paths, whose own routines are entered with the depth between 0 and 257 again: depth is given back, the flag tells failure, output and position are those of the specification whose round trip is proved |
| `RustV0DemanglerObject.RustV0Demangler.ParsePathInner` | src/resolver/resolver.cpp:611-714 | The same for the tag switch of a path, backreferences reading at their target with a position of their own |
| `RustV0DemanglerObject.RustV0Demangler.ParseGenericArgs` | src/resolver/resolver.cpp:642-661 | The same for the argument loop |
| `RustV0DemanglerObject.RustV0Demangler.ParseGenericArg` | src/resolver/resolver.cpp:716-731 | The same for one argument |
| `RustV0DemanglerObject.RustV0Demangler.ParseConst` | src/resolver/resolver.cpp:733-756 | The same for constants |
| `RustV0DemanglerObject.RustV0Demangler.ParseType` | src/resolver/resolver.cpp:758-766 | The same for types |
| `RustV0DemanglerObject.RustV0Demangler.ParseCompoundType` | src/resolver/resolver.cpp:799-900 | The same for the compound types |
| `RustV0DemanglerObject.RustV0Demangler.ParseTupleElements` | src/resolver/resolver.cpp:853-875 | The same for the tuple loop |
| `RustV0DemanglerObject.RustV0Demangler.SkipOptionalDecimal` | src/resolver/resolver.cpp:518-524 | Moves the position over a leading number that does not start with zero, and nothing else |
| `RustV0DemanglerObject.RustV0Demangler.Start` | src/resolver/resolver.cpp:493-500 | A fresh object yields the run of its body |
| `RustV0DemanglerObject.DemangleName` | src/resolver/resolver.cpp:904-920 | Names beginning `_R` are shown demangled or as they are, others as the foreign demangler shows them |
| `LineTable.TableRoundTrip` | src/debug/debug.cpp:410-501 | Every table of ascending sequences, encoded with special opcodes where they fit, behind opcode 8 where they fit then, and advance, line and copy opcodes otherwise, comes back row for row, with no error and the cursor at the end; for every line base, line range, instruction length, byte order and opcode base from 6 on |
| `LineTable.SpecialInverts` | src/debug/debug.cpp:493-500 | A special opcode chosen by the formula of section 6.2.5.1 of DWARF 5 moves address and line by exactly the wanted amounts and pushes the row |
| `LineTable.PaddingIsSpecial255` | src/debug/debug.cpp:471-475 | Opcode 8 leaves the address that special opcode 255 leaves, (255 - opcode base) / line range instructions on, and changes nothing else |
| `LineTable.PaddedTurn` | src/debug/debug.cpp:471-499 | Opcode 8 and a special opcode for the rest of the way push the wanted row |
| `LineTable.RowTurn` | src/debug/debug.cpp:417-499 | Running the encoding of one row takes any registers to those of the row and pushes just that row |
| `LineTable.AdvanceTurn` | src/debug/debug.cpp:454-456 | The advance opcode reaches any address that is a whole number of instruction lengths ahead |
| `LineTable.LineTurn` | src/debug/debug.cpp:457-459 | The line opcode reaches any line from any other |
| `LineTable.AddressTurn` | src/debug/debug.cpp:434-448 | An extended set-address opcode sets exactly its address, in either byte order, and leaves the cursor behind itself |
| `LineTable.SequenceTurn` | src/debug/debug.cpp:434-448 | A sequence yields its rows and its end row, and leaves the registers as at the start |
| `LineOpcodes.PaddingOpcode` | src/debug/debug.cpp:471-475 | Opcode 8 takes one byte and leaves the address of special opcode 255 and no row |
| `LineOpcodes.FlagOpcodes` | src/debug/debug.cpp:466-470 | Opcodes 6, 7, 10 and 11 take one byte and change nothing |
| `LineOpcodes.FixedAdvance` | src/debug/debug.cpp:476-478 | Opcode 9 moves the address on by two bytes, in either byte order, which no instruction length scales |
| `LineOpcodes.InstructionSet` | src/debug/debug.cpp:479-481 | Opcode 12 passes over one number |
| `LineOpcodes.UnknownStandard` | src/debug/debug.cpp:482-490 | Any other standard opcode passes over exactly as many numbers as the header gives it |
| `LineOpcodes.UnknownExtended` | src/debug/debug.cpp:434-448 | An unknown extended opcode is passed over whole, whatever its data |
| `LineOpcodes.Discriminator` | src/debug/debug.cpp:434-448 | So is a discriminator |
| `LineOpcodes.SetAddress` | src/debug/debug.cpp:434-448 | A set-address opcode takes eight bytes when its length is nine or more and four otherwise; the next opcode stands where the length says |
| `LineOpcodes.SpecialWithoutRange` | src/debug/debug.cpp:493-500 | With a line range of 0 a special opcode pushes a row and moves nothing |
| `LineOpcodes.PushedRow` | src/debug/debug.cpp:417-424 | A pushed row shows the registers, a line that is not positive as 0, line and column cut to 32 bits |
| `LineTable.LapsOfRows` | src/debug/debug.cpp:432-448 | Thirteen bytes round which the loop goes for ever, pushing a row a lap: after 2k turns the cursor is back and there are k rows more, for every k |
| `LineTable.LapsNeverEnd` | src/debug/debug.cpp:432-448 | On them no turn is the last one |
| `LineTable.DetourEnds` | src/debug/debug.cpp:432-448 | A program of which a turn leads backwards and which ends all the same |
| `LineProgram.StepProgress` | src/debug/debug.cpp:432-501 | A turn of the loop advances the cursor or sets the error flag if and only if it is not an extended opcode that stands wholly in the bytes and whose length wraps the 64-bit sum back |
| `LineProgram.StepRows` | src/debug/debug.cpp:432-501 | A turn pushes at most one row and keeps those there are |
| `LineProgram.StepIgnoresRegisters` | src/debug/debug.cpp:432-501 | Where a turn leaves the cursor does not depend on the registers |
| `LineLoop.EndsIffNoRevisit` | src/debug/debug.cpp:432-501 | The loop ends if and only if no two of its turns start at one place; whether they do shows by the turn after as many as there are program bytes, from the cursor alone |
| `LineLoop.ForwardEnds` | src/debug/debug.cpp:432-501 | It ends when no reached turn is stuck |
| `LineLoop.RunIsLast` | src/debug/debug.cpp:432-501 | Whatever number of turns ends the loop leaves the run |
| `LineLoop.RunRows` | src/debug/debug.cpp:417-501 | A loop that ends pushes no more rows than the program has bytes, and keeps those there are |
| `LineLoop.RunRowsForward` | src/debug/debug.cpp:417-501 | When no reached turn is stuck, no more rows than bytes from the cursor on |
| `LineLoop.RunProgram` | src/debug/debug.cpp:410-503 | On every program on which the loop ends, it ends and leaves the cursor and the rows of the run |
| `LineProgram.ExecuteOpcode` | src/debug/debug.cpp:432-501 | One turn on the cursor object is one step of the machine |
| `LineProgram.ExecuteStandard` | src/debug/debug.cpp:449-491 | The standard opcodes, the unknown ones skipping as many numbers as the header says |
| `LineProgram.ExecuteExtended` | src/debug/debug.cpp:434-448 | The extended opcodes; the cursor ends at the announced length whatever was read |
| `Leb128.UlebInverts` | src/debug/debug.cpp:115-133 | The reader inverts the unsigned encoder of section 7.6 of DWARF 5 for every 64-bit number, wherever it stands |
| `Leb128.SlebInverts` | src/debug/debug.cpp:135-154 | The reader inverts the signed encoder for every signed 64-bit number, the ten-byte ones included |
| `Leb128.AtMostElevenReads` | src/debug/debug.cpp:115-154 | On any bytes both readers stop after at most eleven reads |
| `Cursors.Cursor.U8` | src/debug/debug.cpp:68-75 | Reads one byte and moves on, or sets the flag, stays and gives zero |
| `Cursors.Cursor.U16` | src/debug/debug.cpp:77-83 | Two bytes in the byte order of the object, each read as if alone |
| `Cursors.Cursor.Word` | src/debug/debug.cpp:85-113 | Four or eight bytes in the byte order of the object, each read as if alone |
| `Cursors.Cursor.ReadUleb` | src/debug/debug.cpp:115-133 | The loop accumulates exactly the specified number, also on overlong and cut-off encodings |
| `Cursors.Cursor.ReadSleb` | src/debug/debug.cpp:135-154 | The loop accumulates and sign-extends exactly the specified number |
| `SourceMap.LoadRows` | src/debug/debug.cpp:556-574 | The unit loop ends whatever a unit does to the cursor, after at most one turn a byte; it keeps a unit that ran out of bytes and drops one that made no progress |
| `SourceMap.Units` | src/debug/debug.cpp:560-574 | The units taken are no more than the bytes left |
| `SourceMap.UnitsFollow` | src/debug/debug.cpp:556-574 | The units are exactly those that follow on one another, each parsed where the one before ended and with progress, until the bytes are used up, a unit has run out of them or the next would make no progress |
| `SourceMap.TagBits` | src/debug/debug.cpp:568-569 | The lower half of a tag is that of the file number; a bit of the upper half is set when file or unit number has it set |
| `SourceMap.TagReadsBackIffSmall` | src/debug/debug.cpp:568-581 | The unit and file numbers packed into one word come apart again if and only if the file number has 32 bits |
| `SourceMap.RowKeepsItsPath` | src/debug/debug.cpp:568-588 | A row of any unit gets its path from the file table of its own unit |
| `SourceMap.LargeFileTakesAnotherPath` | src/debug/debug.cpp:460-462 | Seven program bytes that set file number 2^32: the row gets the first path of the next unit |
| `SourceMap.BuildLocations` | src/debug/debug.cpp:576-599 | One location a row, none lost or invented, by ascending address |
| `SourceMap.LocationsShowRows` | src/debug/debug.cpp:556-599 | From units to table: an entry is in it if and only if it shows a row of a unit, with its address, line and column, the path of its file in that unit and the text of that line |
| `SourceMap.EntryShows` | src/debug/debug.cpp:576-599 | What is shown for one row of one unit |
| `SourceMap.SourceAtIsNearestRow` | src/debug/debug.cpp:607-622 | The location is that of the last row of greatest address not above the query, unless that row has no line; without such a row there is none |
| `LineDiff.LcsIsMaximum` | src/cli/cli.cpp:1201-1207 | The table entry of two suffixes is the length of one of their common subsequences and no common subsequence is longer |
| `LineDiff.DiffIsShortest` | src/cli/cli.cpp:1190-1229 | The script shown has the fewest delete and insert lines of all scripts for the two bodies if and only if both are within the cap of 4000 or they share no line |
| `LineDiff.DiffReconstructs` | src/cli/cli.cpp:1193-1229 | Keep and delete lines in order give the old body, keep and insert lines the new one, below and above the cap of 4000 |
| `LineDiff.DiffIsPreferred` | src/cli/cli.cpp:1208-1229 | Within the cap the script shown is the only shortest one that keeps equal first lines and, at every point, inserts first only where every script that deletes first costs more |
| `LineDiff.AllDeletedThenInserted` | src/cli/cli.cpp:1186-1199 | Above the cap, and for bodies that share no line, all old lines are deleted before all new ones are inserted |
| `LineDiff.KeepsExactlyWhenEqual` | src/cli/cli.cpp:1190-1229 | Only keep lines are shown if and only if the bodies are equal and within the cap |
| `LineDiff.PrintedScriptReadsBack` | src/cli/cli.cpp:1193-1229 | When no line holds a newline, the printed text determines the script |
| `LineDiff.FillTable` | src/cli/cli.cpp:1201-1207 | The descending in-place loops leave the optimum for every pair of suffixes, in 32 bits |
| `LineDiff.PrintWalk` | src/cli/cli.cpp:1208-1223 | The walk over the table prints the specified script of the common part, ties deleting first |
| `LineDiff.PrintDiff` | src/cli/cli.cpp:1186-1230 | The printed body is the rendered script, on both branches |
| `FunctionDiff.SummaryAgreesWithDiff` | src/features/features.cpp:262-292 | With mnemonics free of spaces and no newlines: the line diff shows only keep lines if and only if the signatures are equal and the body is within the cap of 4000 |
| `FunctionDiff.SummaryAgreesIffNoClash` | src/features/features.cpp:262-292 | For instructions without newlines: signature and line diff agree on all bodies over a vocabulary, but for the cap, if and only if it has no instruction without operands that one with operands reads like, in the line or in the signature |
| `FunctionDiff.ClashingInstructions` | src/features/features.cpp:262-271 | Both ways to clash: two different bodies with one signature, and one line text with two signatures |
| `DiffReport.DiffReports` | src/features/features.cpp:260-318 | What is reported, on the two maps alone: sorted lists of the new and gone names without a partner, of the changed names and the texts of the renames, and the number of unchanged names |
| `DiffReport.RenamesInStep` | src/features/features.cpp:300-312 | The renames are exactly the pairs of a gone and a new name of one body that have equally many names of that body before them |
| `DiffReport.PartnersMatched` | src/features/features.cpp:300-312 | The same for any two lists without repetition |
| `TextOrder.NotBefore` | src/features/features.cpp:314-316 | The order of names is that of the first character where they differ, beginnings first |
| `FunctionDiff.SignatureIsEntries` | src/features/features.cpp:262-271 | A signature tells the mnemonic-operand texts of a body in order, and nothing more |
| `FunctionDiff.CountsBalance` | src/features/features.cpp:282-312 | Added, changed and unchanged make up the new names, removed, changed and unchanged the old ones, renames counting as changed |
| `FunctionDiff.NoRenameIsMissed` | src/features/features.cpp:300-312 | After the rename pass no added function left over has the body of a removed one left over |
| `FunctionDiff.RenamesAreMaximal` | src/features/features.cpp:300-312 | For every body the renames are as many as the smaller of its added and removed counts |
| `FunctionDiff.RenamesPairEqualBodies` | src/features/features.cpp:300-312 | Every rename pairs a removed with an added function of the same body |
| `FunctionDiff.AddedAreConserved` | src/features/features.cpp:300-312 | The names in the added list before the pass are those left over and the targets of renames, each as often |
| `FunctionDiff.RemovedAreConserved` | src/features/features.cpp:300-312 | The same for the removed list and the sources of renames |
| `FunctionDiff.EmptyExactlyWhenEqual` | src/features/features.cpp:282-312 | Nothing is added, removed or changed if and only if the two programs have the same functions with the same bodies |
| `FunctionDiff.ByNameHoldsLast` | src/features/features.cpp:273-280 | Of several functions of one name the last one counts |
| `FunctionDiff.ByNameOnlyNames` | src/features/features.cpp:273-280 | No other names get in |
| `FunctionDiff.SortedIsOrdered` | src/features/features.cpp:314-316 | The lists come out in ascending order |
| `FunctionDiff.PairRenames` | src/features/features.cpp:300-312 | The pass that erases from both lists while walking one does what the specified matching says |
| `FunctionDiff.Classify` | src/features/features.cpp:282-292 | The walk over the new names sorts each into added, changed or unchanged |
| `FunctionDiff.RemovedFrom` | src/features/features.cpp:293-298 | The walk over the old names finds exactly those that are gone |
| `FunctionDiff.DiffFunctions` | src/features/features.cpp:260-318 | The whole diff is the specified one, about which the lemmas above speak |
| `ControlFlow.DepthIsLargestFamily` | src/features/features.cpp:191-222 | The nesting depth is the size of a largest family of branches inside the body of which any two go over a common position between branch and target |
| `ControlFlow.FamilyBounded` | src/features/features.cpp:212-222 | No family of branches that meet pairwise outnumbers the branches over some one position |
| `ControlFlow.FiguresDescribe` | src/features/features.cpp:164-227 | All figures by their meaning: the extent, the size of the least set of leaders, the number of branch instructions, the largest family of branches |
| `ControlFlow.BranchesCounted` | src/features/features.cpp:188-193 | The branch count is the number of jumps and calls, direct or indirect, conditional or not |
| `ControlFlow.TargetIsFirst` | src/features/features.cpp:200-207 | A branch goes to the first instruction at its target address, if there is one in the body |
| `ControlFlow.LeadersAreLeast` | src/features/features.cpp:186-207 | The leaders are the least set with the entry, what follows each splitting instruction and each in-body branch target |
| `ControlFlow.LeadersBounded` | src/features/features.cpp:186-210 | The block count is at most one more than the splitting instructions and the in-body targets |
| `ControlFlow.BlocksPartition` | src/features/features.cpp:186-210 | The leaders cut a body into consecutive non-empty blocks that cover it without overlap |
| `ControlFlow.BlocksPerLeader` | src/features/features.cpp:210 | There are as many blocks as leaders |
| `ControlFlow.LeadersCountBlocks` | src/features/features.cpp:210 | The figure shown as basic blocks is the number of blocks of a partition of the whole body |
| `ControlFlow.BlocksAreBasic` | src/features/features.cpp:186-207 | Only the last instruction of a block splits, and every in-body branch target starts a block |
| `ControlFlow.IndexAddresses` | src/features/features.cpp:181-184 | The table maps each address to the first instruction there |
| `ControlFlow.ScanBody` | src/features/features.cpp:186-207 | The loop collects exactly the leaders, the branch count and the spans |
| `ControlFlow.DeepestNesting` | src/features/features.cpp:212-222 | The double loop finds the greatest number of spans over one position |
| `ControlFlow.ComputeStats` | src/features/features.cpp:164-227 | Every function gets, in order, an entry that describes it: extent, blocks, branches and depth by their meaning |
| `ElfReader.CheckedAdd` | src/elf/elf.cpp:112-119 | The sum, or none exactly when it leaves 64 bits |
| `ElfReader.RangeWithin` | src/elf/elf.cpp:121-125 | True exactly when the range ends inside the image, as unbounded numbers |
| `ElfReader.DivisionFindsOverflow` | src/elf/elf.cpp:523-526 | Dividing the 64-bit product back finds the overflow of a multiplication exactly |
| `ElfReader.BigIsReversedLittle` | src/elf/elf.cpp:154-202 | The two byte orders read mirrored bytes alike |
| `ElfReader.Reader.U64` | src/elf/elf.cpp:184-202 | Defined exactly when the eight bytes lie in the image |
| `ElfReader.Reader.I64` | src/elf/elf.cpp:213-220 | The signed number congruent to the unsigned one |
| `ElfReader.NameEndsAtFirstZero` | src/elf/elf.cpp:326-348 | Offset 0 is the empty name; elsewhere a name is refused only if no zero byte follows its offset and is otherwise the bytes before the first one |
| `ElfReader.StringFromTable` | src/elf/elf.cpp:326-348 | The scan yields exactly that name |
| `ElfLayout.HeaderRoundTrip` | src/elf/elf.cpp:350-432 | Any file that begins with a written header, of either class and byte order, is taken to have that header |
| `ElfLayout.ExtendedNumbersReadBack` | src/elf/elf.cpp:502-521 | Section, name and program counts too large for the header come from the size, link and info of section zero |
| `ElfLayout.SectionRoundTrip64` | src/elf/elf.cpp:434-490 | A section header laid out as the System V ABI says is read back field by field, 64-bit |
| `ElfLayout.SectionRoundTrip32` | src/elf/elf.cpp:434-490 | The same, 32-bit |
| `ElfLayout.SegmentRoundTrip64` | src/elf/elf.cpp:597-607 | A program header is read back, 64-bit |
| `ElfLayout.SegmentRoundTrip32` | src/elf/elf.cpp:597-615 | A program header is read back, 32-bit, whose flags stand elsewhere |
| `ElfLayout.SymbolRoundTrip64` | src/elf/elf.cpp:626-656 | A symbol entry is read back, 64-bit, binding and type written with the codes of the System V ABI |
| `ElfLayout.SymbolRoundTrip32` | src/elf/elf.cpp:626-656 | The same, 32-bit |
| `ElfLayout.InfoReadsBack` | src/elf/elf.cpp:278-311 | The byte with both codes gives back binding and type |
| `ElfLayout.RelocationRoundTrip64` | src/elf/elf.cpp:737-777 | A relocation entry, with or without addend, gives back offset, type, symbol and signed addend, 64-bit |
| `ElfLayout.RelocationRoundTrip32` | src/elf/elf.cpp:737-777 | The same, 32-bit |
| `ElfFile.ParseHeader` | src/elf/elf.cpp:350-432 | An accepted header has room for all its fields and entry sizes that suffice for the entries there are |
| `ElfFile.TableFits` | src/elf/elf.cpp:523-531 | Table offset, count and entry size are accepted exactly when the unbounded sum and product end in the image |
| `ElfFile.SectionsOf` | src/elf/elf.cpp:523-574 | A section table is accepted exactly when it and all its sections lie in the image and are named by the section the header points at |
| `ElfFile.ParseSectionHeaders` | src/elf/elf.cpp:492-574 | Accepts exactly the loadable headers and gives the named sections with the completed header |
| `ElfFile.NameSections` | src/elf/elf.cpp:549-561 | Every section gets the name at its own offset; refused exactly when one is unreadable |
| `ElfFile.CheckSections` | src/elf/elf.cpp:563-571 | True exactly when every section other than NOBITS lies in the image |
| `ElfFile.SegmentOffset` | src/elf/elf.cpp:585-615 | Every program header of a table that fits stands wholly in the image, which is what its unchecked reads rely on |
| `ElfFile.ParseSegments` | src/elf/elf.cpp:576-624 | Accepts exactly when the table and every segment lie in the image, and yields the segments of its entries, in order |
| `ElfSymbols.EntryOffset` | src/elf/elf.cpp:672-700 | Every entry of a table of whole entries stands wholly in the image, which is what its unchecked reads rely on |
| `ElfSymbols.ParseSymbol` | src/elf/elf.cpp:626-656 | Refused only for its name |
| `ElfSymbols.ParseSymbols` | src/elf/elf.cpp:658-704 | Accepts exactly when every symbol table is sound and every name readable; symbols come by section and in one list, in order |
| `ElfSymbols.ParseRelocation` | src/elf/elf.cpp:737-777 | Type and symbol index recombine to the info word; an accepted index is zero or names a symbol of the linked table |
| `ElfSymbols.ParseRelocations` | src/elf/elf.cpp:706-781 | Accepts exactly when every relocation table is sound and every index valid; the relocations come in table order |
| `ElfSymbols.ImageOf` | src/elf/elf.cpp:815-863 | In what an accepted image is read as, all sections with contents and all segments lie inside the image |
| `ElfSymbols.ParseBytes` | src/elf/elf.cpp:815-863 | Accepts exactly the sound images and yields the segments, sections, symbols and relocations of their tables, in order |
| `ElfAcceptance.HeaderAcceptedIff` | src/elf/elf.cpp:350-432 | A header is accepted exactly when identification, version, room and record sizes are right, stated byte by byte; which of the two complaints a bad identification gets |
| `ElfAcceptance.SectionsAcceptedIff` | src/elf/elf.cpp:523-574 | A section table is accepted exactly when at most 65535 headers, their sections and their names stand in the bytes |
| `ElfAcceptance.LoadedIff` | src/elf/elf.cpp:492-574 | Sections are loaded exactly when the file says it has none, or the numbers are there and lead to such a table |
| `ElfAcceptance.SegmentsAcceptedIff` | src/elf/elf.cpp:576-624 | Segments are accepted exactly when the table and every segment stand in the bytes |
| `ElfAcceptance.SymbolsReadableIff` | src/elf/elf.cpp:658-704 | A symbol table is accepted exactly when it is made of whole entries of 24 or 16 bytes, linked to a string table, and every name ends there |
| `ElfAcceptance.RelocationsReadableIff` | src/elf/elf.cpp:706-781 | A relocation table is accepted exactly when it is made of whole entries, linked to a section, and every entry names no symbol or one of that section |
| `ElfAcceptance.AcceptedIff` | src/elf/elf.cpp:815-863 | A file is accepted exactly when its header is sound and its sections, segments, symbol tables (kinds 2 and 11) and relocation tables (4 and 9) stand in its bytes |
| `ElfRoundTrip.ImageRoundTrip` | src/elf/elf.cpp:815-863 | An image that holds header, segments, named sections, symbol and relocation entries where its tables say is accepted and read as exactly those parts, for either class and byte order and any layout |
| `ElfRoundTrip.AssembledReadsBack` | src/elf/elf.cpp:815-863 | A file put together of header, program headers, section headers and contents is read back as the parts it was made from |
| `ElfRoundTrip.BareHeaderAccepted` | src/elf/elf.cpp:815-863 | Every bare header is accepted, with whatever behind it, as an image without parts |
| `ElfRoundTrip.SymbolTableReadsBack` | src/elf/elf.cpp:658-704 | A section that holds symbol entries with readable names yields exactly those symbols |
| `ElfRoundTrip.RelocationTableReadsBack` | src/elf/elf.cpp:706-781 | A section that holds relocation entries yields exactly those, with the names of their symbols |
| `Strings.SpansAreLiterals` | src/elf/elf.cpp:1054-1077 | The scan lists exactly the maximal runs of two or more bytes that are 9, 10, 13 or from 32 to 126, with a zero byte right behind |
| `Strings.SpansInOrder` | src/elf/elf.cpp:1054-1077 | They come in order, at least the zero byte apart |
| `Strings.ScanSection` | src/elf/elf.cpp:1054-1077 | The loop with its current run yields those literals, up to the limit over all sections |
| `Strings.ExtractStrings` | src/elf/elf.cpp:1040-1078 | All read-only data sections in order, cut at 200000 |
| `Strings.AllLiteralsListed` | src/elf/elf.cpp:1040-1078 | The literals are those of the loaded, read-only sections that are neither code, without bytes nor string tables, each once, in order, with its address, length and bytes |
| `Strings.FirstAreKept` | src/elf/elf.cpp:1042-1067 | Of them the first 200000 are kept |
| `Strings.LiteralsSeparate` | src/elf/elf.cpp:1040-1078 | When the sections that hold strings occupy disjoint addresses, no two literals share one |
| `Strings.ExtractedSeparate` | src/elf/elf.cpp:1040-1078 | So it is for the literals extracted |
| `Sorting.LowerBoundSplits` | src/resolver/resolver.cpp:378-384 | On a sorted table the bisection separates the entries below the address from the others |
| `Sorting.UpperBoundSplits` | src/resolver/resolver.cpp:400-406 | On a sorted table the bisection separates the entries up to the address from the others |
| `Resolver.SymbolAtExact` | src/resolver/resolver.cpp:377-393 | A symbol is found if and only if one starts at the address, and it is the first of them |
| `Resolver.NearestIsGreatest` | src/resolver/resolver.cpp:395-423 | The nearest symbol has the greatest address not above the query; none is found only if there is none |
| `Resolver.NearestExactIffSymbolAt` | src/resolver/resolver.cpp:377-423 | It is exact precisely when the exact lookup succeeds |
| `Resolver.NearestAgreesWithSymbolAt` | src/resolver/resolver.cpp:377-423 | Of several symbols at one address the exact lookup picks the first and the nearest the last: they agree if and only if those two are alike |
| `Resolver.SaturatedEnd` | src/resolver/resolver.cpp:133-136 | The end of the search is the end of the instruction, held below the last address |
| `Resolver.RelocationSearch` | src/resolver/resolver.cpp:122-151 | A relocation is found if and only if one lies in the searched window, and it is one of least address |
| `Resolver.ReferenceIffRelocationInBytes` | src/resolver/resolver.cpp:122-151 | Found means lying in the bytes of the instruction, except exactly for an empty instruction with a relocation at its address and for one that reaches the last address with a relocation only there |
| `Resolver.LastAddressMissed` | src/resolver/resolver.cpp:133-146 | Two bytes that reach the last address, with a relocation only there: no reference |
| `Resolver.EmptyInstructionTakes` | src/resolver/resolver.cpp:125-131 | No bytes, with a relocation at the address: a reference |
| `Resolver.ReferenceWithinSpace` | src/resolver/resolver.cpp:122-151 | For an instruction that ends inside the address space, found if and only if some relocation lies in its bytes |
| `Resolver.NoSharedRelocation` | src/resolver/resolver.cpp:122-151 | Instructions that do not overlap get different relocations |
| `IndexBuilder.BuildIndex` | src/resolver/resolver.cpp:155-247 | The index holds exactly the kept symbols, the PLT slots and the kept relocations, each table sorted by its comparison |
| `IndexMeaning.SymbolsHeld` | src/resolver/resolver.cpp:161-221 | The symbol table holds an entry exactly when a kept symbol has it, stated on its name bytes, kind, binding and options, or a slot of the linkage table |
| `IndexMeaning.RelocationsHeld` | src/resolver/resolver.cpp:174-199 | The relocation table holds an entry exactly when a relocation has it that is neither for metadata nor to a local label; its name gets the mark of its table once |
| `IndexMeaning.SymbolsCounted` | src/resolver/resolver.cpp:161-221 | There are as many entries as kept symbols and slots |
| `IndexMeaning.ReferencesCounted` | src/resolver/resolver.cpp:174-199 | And as many as kept relocations |
| `IndexMeaning.NamesIff` | src/resolver/resolver.cpp:187-221 | The k-th slot is that of the relocation with k slots taken before it |
| `IndexMeaning.PltIff` | src/resolver/resolver.cpp:55-64 | The linkage table is the first section named `.plt`, if its address is not zero |
| `IndexMeaning.NameIff` | src/resolver/resolver.cpp:92-109 | A relocation is shown by its symbol, else by its section, with `@plt` or `@got` where the section calls for it and the name has none |
| `IndexMeaning.TablesInOrder` | src/resolver/resolver.cpp:223-244 | Entries at one address are in the order of their names, relocations first in that of their sections |
| `IndexBuilder.SymbolFoundIffPresent` | src/resolver/resolver.cpp:155-247 | On a built index a symbol is found at an address if and only if the image has a kept symbol or a PLT slot there |
| `IndexBuilder.ReferenceFoundIffPresent` | src/resolver/resolver.cpp:122-247 | On a built index an instruction gets a reference if and only if a kept relocation of the image lies in its bytes |
| `IndexBuilder.SymbolLessIsOrder` | src/resolver/resolver.cpp:223-231 | The comparison of symbols is a strict weak order, as sorting demands |
| `IndexBuilder.ReferenceLessIsOrder` | src/resolver/resolver.cpp:233-244 | So is the comparison of relocations |
| `Annotations.Annotate` | src/resolver/resolver.cpp:441-461 | Over a built index every instruction gets, in order, the last symbol not above it, the first relocation in its bytes, the first symbol at its branch target, and no literal |
| `Annotations.AnnotatedAnnotates` | src/resolver/resolver.cpp:441-461 | What one annotated instruction says, on the tables of the index |
| `Annotations.RelocationsAttachOnce` | src/resolver/resolver.cpp:441-461 | In a listing of instructions that do not overlap no relocation is attached twice |
| `Annotations.AnnotateStringReferences` | src/features/features.cpp:320-353 | Entries get the literal of the binary search over any sort of the literals, and keep what they have otherwise |
| `Annotations.LiteralAttached` | src/features/features.cpp:335-350 | Over literals that are apart an instruction that refers to an address gets exactly the literal that covers it; nothing else about it changes |
| `Annotations.ReachesIffCovers` | src/features/features.cpp:347 | The test of the search finds every byte of a literal if and only if the end of the literal is an address |
| `Annotations.LookupAgreesIffNoneHidden` | src/features/features.cpp:329-350 | The binary search agrees with a plain scan at every address if and only if no literal goes on behind a later one, in front of the next |
| `Annotations.RelocatableDisagrees` | src/features/features.cpp:343-350 | Two string sections of a relocatable object, both at address 0: on the literals extracted from them the scan finds one at address 3 and the search none, whatever the sort |
| `Annotations.LookupFindsTheLiteral` | src/features/features.cpp:343-350 | Over literals that are apart the search finds a literal if and only if it covers the address |
| `Annotations.AnnotationFindsExtractedLiteral` | src/features/features.cpp:320-353 | From image to annotation: with string sections laid out apart, an address is annotated with a literal if and only if that literal was extracted and covers it |
| `JsonString.StringReadsBack` | src/format/format.cpp:166-204 | Any bytes between quotes, before any text: a string reader by section 7 of RFC 8259 gives back exactly the bytes and the text |
| `JsonString.QuotedIsUnambiguous` | src/format/format.cpp:166-204 | Texts that begin with quoted values are equal only if values and rests are |
| `JsonString.MembersReadBack` | src/format/format.cpp:749-750 | Mnemonic and operands of a record come back whatever they hold; the first cannot spill into the second |
| `JsonString.ByteReadsBack` | src/format/format.cpp:171-201 | The escape of a byte is read as that byte and no further |
| `JsonString.EscapeIsShortest` | src/format/format.cpp:171-201 | The escape of a byte is the shortest text read as it, and the only one of its length without upper-case digits |
| `JsonString.QuotedIsShortest` | src/format/format.cpp:166-204 | No JSON string of the value is shorter than the one written |
| `JsonString.JsonEscape` | src/format/format.cpp:166-204 | The loop writes the escapes of the bytes in order |

## Left out

- RunProgram: is stated for the programs on which the loop ends; on the others, of which `LapsOfRows` is one, the code runs for ever.
- ImageRoundTrip: is for images whose counts fit the header; for larger ones `ExtendedNumbersReadBack` covers the header and the tables are not put together.
- IdentifierReadExactly: leaves aside decimal numbers of 2^63 and more, where the wrapped position test may let an overlong empty name pass.
- PrintedScriptReadsBack: needs lines without newlines, which the disassembler does not produce.
- The demangler shows a negative constant without its sign; the round trip says so and does not ask for more.
- Function pointers, trait objects and higher-ranked types of the grammar, which the demangler gives up on (`RefusedAtTheStart`).
- The C++ demangler, legacy Rust hashes and every other foreign display are a parameter.
- DWARF unit headers, directory and file tables and path joining: the unit loop is proved for any parse of a unit.
- Signed overflow of the line register and of signed LEB128 shifts is undefined in C++; it is modelled as two's complement.
- The header that the section parser completes in place is a value here, returned beside the sections; aliasing is not captured.
- Error messages, offsets in errors and the mapping of file type and machine codes.
- PE and Mach-O readers, the Capstone wrapper and branch classification: foreign calls or repeats of the ELF checks.
- Object numbers and the `synthetic` and format fields of the index, which have one value for one object.
- A dead size test at the end of the nearest-symbol lookup, whose two branches return the same.
- `std::sort` on ties and `std::lower_bound` as library code: any ordered permutation, and a bisection.
- Argument handling, configuration, pager, watcher, completion, colours and tables: user interface.
- Cross-reference and string-reference listings, filters and call searches: single scans with easy contracts.
