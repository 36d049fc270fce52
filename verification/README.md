# Verified model of the hard parts of f2c and libf2c

f2c translates Fortran 77 to C; libf2c is the run-time library of the programs it makes. This
project models the parts of both whose correctness does not show from reading any one function,
and proves what each of them is for.

* **Formats** (`Format*.dfy`, libf2c/fmt.c with wsfe.c). `pars_f` compiles a FORMAT into operations
  with STACK, RET1, GOTO and REVERT; `do_fio` runs them on two small stacks over many calls.
  FormatCode and FormatMachine hold the tree, the code of a tree and the machine, and prove that the
  machine presents the expansion of the tree, and after reversion that of the last top-level group
  onward; FormatWidths says exactly which formats with widths of 0, or nested too deep, it presents so.
  FormatControl says twice what pairing items with descriptors means and proves the two
  agree; FormatDry is about transfers whose items the format cannot take. FormatParse is the grammar of
  FORMAT text, FormatSpelling every legal spelling of a tree and the proof that it is read back,
  FormatBlanks where blanks are misread. FormatScan has the switches and loops that read descriptors,
  FormatUnit the globals and the other procedures of fmt.c and a whole WRITE statement.
* **The heap** (`Heap*.dfy`, src/malloc.c). Headers and payload lie in one array of 8-byte words.
  HeapTiling is about lengths of blocks, HeapImage about words in memory, Heap has the loops.
* **EQUIVALENCE and COMMON** (`Equiv*.dfy`, src/equiv.c). EquivTable has the steps of `doequiv` as
  functions of its tables, EquivFacts and EquivSolve what each keeps, for runs without a report and
  for declarations with a solution, EquivSteps and EquivRuns put them together, EquivExtents
  says how far classes and blocks reach, Equiv has the loops.
* **Expressions** (`Powers.dfy`, `ConstantPowers.dfy`, `Mkexpr*.dfy`, src/expr.c). `mkexpr` and `fold` on
  integer and logical trees, exactly when they keep the value, and that their result is fully
  simplified: MkexprReduced lists what is not left in it.
* **DATA statements** (`Data*.dfy`, src/data.c). `nextdata` on the circular chain of a list with nested
  implied DOs, against the recursive unrolling of the list; the constants paired with the targets.
* **Namelist array sections** (`Sections.dfy`, `NamelistSection.dfy`, libf2c/rsne.c). Collapsed blocks
  and an odometer with adjusted steps, against column-major order.
* **The record buffer** (`Record*.dfy`, libf2c/open.c, wrtfmt.c, wsfe.c). A delayed cursor, a high-water
  mark and a growing buffer, against an overlay where moves are immediate.
* **The intermediate file** (`Pass1*.dfy`, src/p1output.c, src/format.c). Lines of tokens and numerals
  for an expression tree, and the reader that rebuilds it.
* **Decimal numerals** (`Decimals.dfy`, `DecimalValue.dfy`, `CanonicalDecimal.dfy`, `Cds.dfy`, src/cds.c).
  The grammar of numerals, their exact values, and one numeral for each value.
* **The name table** (`NameTable.dfy`, src/misc.c). A closed hash table with linear probing, against a
  list of distinct names.
* **Unformatted and formatted sequential files** (`FramedRecords.dfy`, `SequentialFile.dfy`, libf2c/sue.c,
  uio.c, backspac.c, rewind.c). Records framed by their lengths, under every order of WRITE, READ, REWIND
  and BACKSPACE.
* **Integer editing** (`IntegerField.dfy`, `IntegerEdit.dfy`, libf2c/fmtlib.c, wrtfmt.c, rdfmt.c),
  **character moves** (`StringMoves.dfy`, libf2c/s_copy.c, s_cat.c) and **complex powers**
  (`ComplexPowers.dfy`, libf2c/pow_zi.c, z_div.c).

Objects that change are classes with the variables of the source; their methods are proved against
functions of the old state, about which the lemmas state what the source promises. `Seqs.dfy`, `Options.dfy`,
`Scanning.dfy`, `Numerals.dfy` and `Words.dfy` are shared helpers. `dafny verify dfyconfig.toml` checks everything.

What the outside does enters as values: the text of a format, the items of a transfer, whether more
memory can be had, the offsets of EQUIVALENCE items, and, as functions of the implied-DO variables,
the bounds and subscripts of a DATA list.

Where the code does not do what the standard or its own documentation says the model follows the code.
The cases met, each with the exact condition or the input that shows it:

* a field width of 0 loses repeats (`FormatWidths.PresentsExactly`, `ZeroWidthText`); the standard has no such width;
* a blank between the letters of BN, BZ, SP, SS, TL or TR is misread (`FormatBlanks.ReadsExactly`);
* items after a call that ran out of data descriptors move the cursor again (`FormatDry.SplitExactly`);
* a constant too low to be negated is regrouped wrongly (`MkexprValue.MkexprKeepsValue`, `LossyExample`);
* Iw.0 with signs asked for writes an asterisk for zero if the width is 1 (`IntegerField.ZeroAsBlanks`);
* a section subscript x1:x2:x3 with x2 less than a stride on the wrong side of x1 names one element
  (`NamelistSection.SpanReaches`);
* BACKSPACE at the initial point has effects (`SequentialFile.Unit.Backspace`);
* a READ directly after a WRITE over a longer file meets what is left of it
  (`SequentialFile.Unit.ReadRecord`, `SequentialFile.ReadsWhatNobodyWrote`).

## Model

| member | source | states |
|---|---|---|
| FormatCode.ListCodeAppend | netlib-f2c/libf2c/fmt.c:344-367 | the code of two lists one after the other is the code of the first followed by that of the second, moved behind it |
| FormatCode.RevertLocAppend | netlib-f2c/libf2c/fmt.c:95-115 | the place to revert to is the last top-level group of the later part, or that of the earlier part if the later has none |
| FormatMachine.RunList | netlib-f2c/libf2c/fmt.c:420-514 | from the start of the code of any sound list, at a nesting the stacks allow, the machine presents exactly the expansion of the list, reaches the operation after it, and leaves both stacks as they were: cp and rp follow static nesting |
| FormatMachine.RunItem | netlib-f2c/libf2c/fmt.c:457-473 | the same for one item: a repeat count works off its descriptor that many times and is then gone |
| FormatMachine.RunGroup | netlib-f2c/libf2c/fmt.c:457-473 | a group of n goes around n times (once for 0), with its return place on the stack exactly while it runs |
| FormatMachine.EndsStep | netlib-f2c/libf2c/fmt.c:429-511 | one operation presents the first token that was still to come, or nothing, and the run is one operation closer to the REVERT |
| FormatMachine.FirstPass | netlib-f2c/libf2c/fmt.c:420-514 | from fmt_bg's state the compiled format presents the expansion of its whole tree and stops at REVERT, for every tree with nonzero widths and at most nine levels of parentheses |
| FormatMachine.LaterPass | netlib-f2c/libf2c/fmt.c:474-481 | from where REVERT leads, with both stacks empty, the compiled format presents the expansion from the last top-level group, with its repeat count, to the end |
| FormatMachine.ReusedProperties | netlib-f2c/libf2c/fmt.c:95-115 | what a reversion repeats is a tail of the format, no deeper and as sound as the whole |
| FormatMachine.ExpandAppend | netlib-f2c/libf2c/fmt.c:420-514 | expanding two lists one after the other |
| FormatMachine.ZeroWidthLosesRepeats | netlib-f2c/libf2c/fmt.c:293-294 | 2(I3,I0) compiles to code that presents I3 once although its tree asks for it twice: why a field width may not be 0 |
| FormatWidths.PresentsExactly | netlib-f2c/libf2c/fmt.c:420-514 | the compiled format presents the expansion of its tree, for trees with any widths and any nesting, if and only if the counts and return places fit their stacks and each group in which a width of 0 leaves a count over has 1 or less for its last such count and is to be presented once or presents nothing |
| FormatWidths.PassAtMost | netlib-f2c/libf2c/fmt.c:457-473 | what one pass presents is never longer than the expansion, and is as long exactly for the formats that are fine, where it is the expansion |
| FormatWidths.PassRuns | netlib-f2c/libf2c/fmt.c:429-473 | running the code of any list, widths of 0 included, presents what the pass over its tree says and leaves the counts the tree says on the stack, or leaves the arrays of the stacks if the pass says so |
| FormatWidths.SoundFine | netlib-f2c/libf2c/fmt.c:420-473 | formats with widths other than 0 are among them if and only if their groups are at most eight deep inside the outer parentheses |
| FormatWidths.RunsAway | netlib-f2c/libf2c/fmt.c:465-473 | a group whose last left-over count is more than 1 goes around until the stack of counts is full |
| FormatWidths.ZeroWidthText | netlib-f2c/libf2c/fmt.c:293-294 | the text (2(I3,I0)) is read as that tree, whose code presents I3 once instead of twice |
| FormatControl.NextPresents | netlib-f2c/libf2c/fmt.c:427-482 | taking one item from a remembered place makes the calls that reading the unrolled stream prescribes for that item, and what is left of the stream belongs to the place reached |
| FormatControl.TransferPresents | netlib-f2c/libf2c/fmt.c:427-482 | so for any number of items: the calls made for a whole item list are those of section 13.3 of ANSI X3.9-1978 |
| FormatControl.NextPasses | netlib-f2c/libf2c/fmt.c:427-442 | an item waits while control goes past descriptors that take none: their flags are set and their moves made |
| FormatControl.NextWithoutData | netlib-f2c/libf2c/fmt.c:474-481 | without data descriptors ahead control goes to the end of the pass and, if an item was moved in it, through the reused part exactly once; then do_fio returns, with exactly those moves made |
| FormatControl.NextUsesFirst | netlib-f2c/libf2c/fmt.c:442-456 | an item is edited by the first data descriptor ahead, with the flags set by what stands before it |
| FormatControl.DryExactly | netlib-f2c/libf2c/fmt.c:474-480 | a transfer runs dry if and only if the reused part has no data descriptor and there are more items than the rest of this pass has |
| FormatControl.NextCloses | netlib-f2c/libf2c/fmt.c:448-449 | without an item control goes on to the next data descriptor, colon or end, presenting what lies before it, and ends there |
| FormatControl.SplitCalls | netlib-f2c/libf2c/fmt.c:427-456 | offering a list of items in two do_fio calls leads to the same place and calls as in one, unless the first call runs dry |
| FormatDry.SplitExactly | netlib-f2c/libf2c/fmt.c:427-482 | from every place a do_fio call can start from, items offered in two calls lead to another place than in one, and then with other calls made, if and only if the reused part has no data descriptor, the first call has more items than there are ahead, the second has items, and the reused part moves the cursor |
| FormatDry.SplitDryDiffers | netlib-f2c/libf2c/fmt.c:479-480 | (1X) with two items moves the cursor once in one call and twice in two |
| FormatControl.AddressAt | netlib-f2c/libf2c/fmt.c:427-427 | item k of a call is at ptr plus k lengths |
| FormatDry.StartReady | netlib-f2c/libf2c/fmt.c:521-527 | fmt_bg leaves off where a call may start |
| FormatDry.TransferReady | netlib-f2c/libf2c/fmt.c:420-514 | so does every call |
| FormatDry.DryTransfer | netlib-f2c/libf2c/fmt.c:474-481 | where a call leaves off that runs dry, and all it has presented |
| FormatDry.TurnedTwice | netlib-f2c/libf2c/fmt.c:483-508 | passing the same descriptors again changes no flag |
| FormatDry.CallsDry | netlib-f2c/libf2c/fmt.c:420-514 | any number of calls, one of which runs dry: the dry pass, and the moves of the reused part again for every later call that has items |
| FormatDry.Prescribes | netlib-f2c/libf2c/fmt.c:420-520 | the calls made for a whole format and items in any grouping, whether the format can take them or not |
| FormatSpelling.SkipPasses | netlib-f2c/libf2c/fmt.c:7 | skip passes over blanks only |
| FormatSpelling.NumberPasses | netlib-f2c/libf2c/fmt.c:76-86 | what gt_num reads is digits and blanks, and the number is their decimal value |
| FormatSpelling.NumReads | netlib-f2c/libf2c/fmt.c:74-93 | gt_num reads any digits with any blanks among them as their decimal value and stops at the next character, whatever its default |
| FormatSpelling.QuoteReads | netlib-f2c/libf2c/fmt.c:30-48 | ap_end finds the closing quote of any constant whose quotes are doubled, whatever stands in it |
| FormatSpelling.EditReads | netlib-f2c/libf2c/fmt.c:209-328 | e_d reads every spelling of A, L, I, O, Z, F, D, E and G, with or without count, digits and exponent, in either case and with blanks in and between the numbers, and ne_d leaves it alone |
| FormatSpelling.PlainReads | netlib-f2c/libf2c/fmt.c:117-207 | ne_d reads every spelling of the other descriptors: slash, colon, $, B, S, T, X, P, H and quoted constants |
| FormatSpelling.ItemReads | netlib-f2c/libf2c/fmt.c:328-342 | every item, groups included, is read as its tree, up to blanks after it |
| FormatSpelling.ListReads | netlib-f2c/libf2c/fmt.c:344-367 | every list, with commas where the standard needs them and blanks anywhere between items, is read up to and including its parenthesis as the trees of its items |
| FormatSpelling.SpellingReads | netlib-f2c/libf2c/fmt.c:98-115 | every spelling of a format is read as its tree, whatever follows its last parenthesis |
| FormatSpelling.TreesSound | netlib-f2c/libf2c/fmt.c:209-328 | the tree of a spelled format has an operation for every repeat count, as FirstPass and LaterPass need |
| FormatBlanks.ReadsExactly | netlib-f2c/libf2c/fmt.c:117-207 | a spelling with blanks between the letters of BN, BZ, SP, SS, TL or TR is read as its tree if and only if there are none |
| FormatBlanks.GapMisread | netlib-f2c/libf2c/fmt.c:124-195 | one such blank and the item is refused, read as another, or followed by text that is refused |
| FormatBlanks.BlankInsideName | netlib-f2c/libf2c/fmt.c:131-147 | (B Z) is refused, and (S P) is read as S and a scale factor |
| FormatScan.ScanNumber | netlib-f2c/libf2c/fmt.c:74-93 | gt_num's loop computes the number the grammar defines, or its default, and the position after it |
| FormatScan.ScanString | netlib-f2c/libf2c/fmt.c:30-48 | ap_end's loop finds the closing quote the grammar defines |
| FormatScan.ScanPlain | netlib-f2c/libf2c/fmt.c:117-207 | the switch of ne_d finds the descriptor the grammar finds, its numbers and its end, or none, or an error |
| FormatScan.ScanEdit | netlib-f2c/libf2c/fmt.c:209-328 | so does the switch of e_d, with the count before it |
| FormatUnit.ListOutCode | netlib-f2c/libf2c/fmt.c:344-367 | emitting a list item by item gives its code and, at the outermost level, the place of its last group |
| FormatUnit.GroupOut | netlib-f2c/libf2c/fmt.c:334-342 | STACK, the opening, the body and the closing of a group are the code of the group |
| FormatUnit.FormatOut | netlib-f2c/libf2c/fmt.c:369-382 | the opening, the items and the closing of a format are its compiled code |
| FormatUnit.Unit.OpGen | netlib-f2c/libf2c/fmt.c:50-66 | an operation is appended, or there is no room for it and nothing changes |
| FormatUnit.Unit.Ne_d | netlib-f2c/libf2c/fmt.c:117-207 | reads what the grammar reads at that place and appends exactly its operation |
| FormatUnit.Unit.E_d | netlib-f2c/libf2c/fmt.c:209-328 | reads what the grammar reads and appends the count and the operation, or takes its count back |
| FormatUnit.Unit.F_list | netlib-f2c/libf2c/fmt.c:344-367 | compiles the rest of a list: succeeds exactly if the text is a list and its code fits, and then f__syl, f__parenlvl and f__revloc are those of the tree |
| FormatUnit.Unit.I_tem | netlib-f2c/libf2c/fmt.c:328-342 | the same for one item |
| FormatUnit.Unit.F_s | netlib-f2c/libf2c/fmt.c:95-115 | the same for a parenthesised list |
| FormatUnit.Unit.Pars_f | netlib-f2c/libf2c/fmt.c:369-382 | succeeds exactly if the text is a format whose code has at most 300 operations, and then f__syl holds the code of its tree |
| FormatDry.StreamFeeds | netlib-f2c/libf2c/fmt.c:420-514 | offered from the start of a format, any items it can feed make it present its stream and then close it |
| FormatUnit.Unit.Fmt_bg | netlib-f2c/libf2c/fmt.c:521-527 | the unit stands at the start of the compiled format with nothing presented |
| FormatUnit.Unit.Goto | netlib-f2c/libf2c/fmt.c:465-473 | counts the group down on the stacks in place: the new machine is the machine's step of the old |
| FormatUnit.Unit.Operate | netlib-f2c/libf2c/fmt.c:429-511 | one operation on the arrays f__cnt and f__ret is one step of the machine and one hop of format control |
| FormatUnit.Unit.Item_fio | netlib-f2c/libf2c/fmt.c:427-512 | the goto loop for one item ends, and is one Next of format control |
| FormatUnit.Unit.Do_fio | netlib-f2c/libf2c/fmt.c:420-514 | a call is the transfer of its items by format control, for any number, address and length, and always returns |
| FormatUnit.Unit.En_fio | netlib-f2c/libf2c/fmt.c:516-520 | the transfer is closed: what lies before the next data descriptor, colon or end is presented |
| FormatUnit.Unit.Write | netlib-f2c/libf2c/wsfe.c:44-78 | a formatted WRITE makes exactly the calls section 13.3 prescribes for the format's tree and the whole item list, however its items are split over do_fio calls, and, for a format that cannot take all the items, those of a dry transfer |
| HeapTiling.TilingCovers | netlib-f2c/src/malloc.c:41-46 | every address between the start of the heap and the break lies in exactly one block's header or payload |
| HeapTiling.SplitTiles | netlib-f2c/src/malloc.c:71-77 | splitting a block leaves a tiling |
| HeapTiling.MergeTiles | netlib-f2c/src/malloc.c:116-119 | joining a block with the one above it leaves a tiling |
| HeapTiling.GrowTiles | netlib-f2c/src/malloc.c:82-96 | new memory at the top leaves a tiling up to the new break |
| HeapImage.TakeWhole | netlib-f2c/src/malloc.c:78-79 | unlinking a free block keeps headers, links, order and separation of the free blocks |
| HeapImage.TakeSplit | netlib-f2c/src/malloc.c:71-77 | so does splitting one, whose upper part takes its place in the list |
| HeapImage.GrowTop | netlib-f2c/src/malloc.c:82-96 | so does growing the heap, whose new top block heads the list |
| HeapImage.FreeAlone | netlib-f2c/src/malloc.c:128-132 | so does entering a block next to no free one, in its place in descending order |
| HeapImage.FreeUpper | netlib-f2c/src/malloc.c:116-119 | so does joining it with the free block above it |
| HeapImage.FreeLower | netlib-f2c/src/malloc.c:121-127 | so does joining it with the free block below it |
| HeapImage.FreeBoth | netlib-f2c/src/malloc.c:115-127 | so does joining it with both |
| HeapImage.WholeAllocated | netlib-f2c/src/malloc.c:78-79 | taking a block whole gives the caller that block and changes no other block and no payload word |
| HeapImage.SplitAllocated | netlib-f2c/src/malloc.c:71-77 | taking part of a block does too, and the rest of it stays in the heap |
| HeapImage.GrownAllocated | netlib-f2c/src/malloc.c:82-97 | a block made from new memory does too |
| HeapImage.BothReleased | netlib-f2c/src/malloc.c:115-127 | a block joined with both its neighbours lies inside one free block, its old header says where, and no live block and no payload word has changed |
| HeapImage.LowerReleased | netlib-f2c/src/malloc.c:121-127 | the same when only the block below is free |
| HeapImage.UpperReleased | netlib-f2c/src/malloc.c:116-132 | the same when only the block above is free |
| HeapImage.AloneReleased | netlib-f2c/src/malloc.c:128-132 | the same when neither is |
| Heap.Heap.Search | netlib-f2c/src/malloc.c:62-69 | finds the first of the smallest free blocks that fit, with its predecessor, or none if none fits |
| Heap.Heap.Take | netlib-f2c/src/malloc.c:70-80 | the block found becomes the caller's, split if at least MINBLK is left over |
| Heap.Heap.More | netlib-f2c/src/malloc.c:81-97 | memory is got from sbrk, continuing a free block at the top; on failure only that block is lost |
| Heap.Heap.Malloc | netlib-f2c/src/malloc.c:48-99 | best fit: a smallest free block that holds the bytes asked for, split if 48 bytes or more are left over, else a block at the top with 8192 bytes more behind it; a block split or new is less than 8 bytes larger than asked; it fails exactly if no free block fits and there is no such room, and then only a popped top block is lost; the heap stays tiled, descending and without adjacent free blocks; every other live block and every live payload word is unchanged |
| Heap.Heap.Round | netlib-f2c/src/malloc.c:115-133 | one turn of free's loop either moves on or enters the block, coalesced on both sides |
| Heap.Heap.Free | netlib-f2c/src/malloc.c:101-134 | the block is free, coalesced with free neighbours on both sides; the invariant, the other live blocks and all payload words are kept |
| Heap.Heap.Memmove | netlib-f2c/src/malloc.c:158 | a move between overlapping ranges copies the words as they were |
| Heap.Heap.Realloc | netlib-f2c/src/malloc.c:136-165 | every word with a byte of the smaller of the old block and the new size is carried over to a block of at least the new size, and no other live block or word changes, although the block was freed, merged, slid down and perhaps re-split; it fails, and then the block is gone, only if no free block fits and memory is short |
| EquivTable.EqvEqv | netlib-f2c/src/equiv.c:314-352 | merging two classes keeps the tables well formed and reports nothing |
| EquivTable.EqvCommon | netlib-f2c/src/equiv.c:235-311 | putting a class into COMMON, with the classes it drags along, ends: each recursive call has fewer equivalenced names |
| EquivFacts.MoveMoves | netlib-f2c/src/equiv.c:338-350 | eqveqv's loop moves every name of the old class by the same amount and files its links in front of the new chain |
| EquivFacts.AgreeKept | netlib-f2c/src/equiv.c:314-352 | items that have one address keep having one when classes move rigidly |
| EquivFacts.PlaceMerge | netlib-f2c/src/equiv.c:170-193 | placing an item that is already in another class merges that class so that both its addresses coincide, and keeps every filed chain and every extent |
| EquivFacts.PlaceFresh | netlib-f2c/src/equiv.c:185-187 | placing a name seen for the first time files it at its offset |
| EquivFacts.CommitDrag | netlib-f2c/src/equiv.c:280-295 | a name dragged into COMMON takes its whole class with it, all members by the same amount |
| EquivSolve.FollowsMerge | netlib-f2c/src/equiv.c:170-193 | if the tables follow a solution of the declarations before a merge, they do after it, and nothing is reported |
| EquivSolve.FollowsDrag | netlib-f2c/src/equiv.c:280-295 | a class dragged into COMMON along a solution does not reach back past the start of the block, and follows the solution there |
| EquivSteps.PlaceStep | netlib-f2c/src/equiv.c:165-195 | one item of a declaration is placed without disturbing what earlier ones agreed on |
| EquivSteps.CommitAll | netlib-f2c/src/equiv.c:264-307 | a whole class is put into COMMON without disturbing any agreement |
| EquivSteps.MetKept | netlib-f2c/src/equiv.c:198-199 | a declaration that is met stays met when classes move rigidly and keep their room |
| EquivRuns.CommitDeclaration | netlib-f2c/src/equiv.c:159-164 | if eqvcommon reports nothing, the items of the declaration have one address in the block, inside it |
| EquivRuns.CommitDeclarationFollows | netlib-f2c/src/equiv.c:252-258 | with a solution in hand eqvcommon reports nothing |
| EquivRuns.MetSolves | netlib-f2c/src/equiv.c:36-229 | an assignment read off the tables satisfies every declaration that is met |
| EquivRuns.AdjustedAgree | netlib-f2c/src/equiv.c:214 | counting offsets from the bottom of each class keeps items together |
| Equiv.MetSatisfiable | netlib-f2c/src/equiv.c:36-229 | declarations processed without a report are satisfiable |
| Equiv.AdjustedFinal | netlib-f2c/src/equiv.c:201-229 | after the last loop the items of each list have one address, COMMON names have not moved, and every name lies inside its class or block |
| EquivExtents.PlaceExact | netlib-f2c/src/equiv.c:170-193 | placing an item keeps it so that each class ends where a name in it, or one still to come, has an end or a shared byte |
| EquivExtents.CommitDeclarationExact | netlib-f2c/src/equiv.c:251-310 | so does putting a class into a COMMON block, which becomes no longer than the names dragged into it |
| Equiv.AdjustedExtents | netlib-f2c/src/equiv.c:203-226 | after the last loop classes begin at 0 and end at ends of their names or at shared bytes |
| Equiv.Equivalence.Eqveqv | netlib-f2c/src/equiv.c:314-352 | the loop over the old chain computes the merged tables |
| Equiv.Equivalence.Eqvcommon | netlib-f2c/src/equiv.c:235-311 | the recursive procedure computes the tables with the class in COMMON |
| Equiv.Equivalence.CommonOne | netlib-f2c/src/equiv.c:264-307 | the switch on the storage class of one linked name |
| Equiv.Equivalence.PlaceOne | netlib-f2c/src/equiv.c:165-195 | the second loop on one item |
| Equiv.Equivalence.Lookup | netlib-f2c/src/equiv.c:61-154 | looking the items up finds their offsets, the extent of the class and the last COMMON place, and reports exactly the faulty items |
| Equiv.Equivalence.Declare | netlib-f2c/src/equiv.c:56-196 | one declaration keeps: everything before it is met unless something was reported, and with a solution nothing is |
| Equiv.Equivalence.Doequiv | netlib-f2c/src/equiv.c:35-229 | an inconsistency is reported if and only if the declarations cannot be met; if none is, all items of each EQUIVALENCE list, transitively, have one address in one class or COMMON block, names of COMMON have not moved, every name lies within its class or block, classes begin and end at ends of their names or at shared bytes, and a block is as long as it was or ends so |
| Powers.QuotRegroup | netlib-f2c/src/expr.c:2194-2220 | x * c / d is x * (c / d) under C's division if d divides c |
| Powers.QuotIs | netlib-f2c/src/expr.c:3353-3375 | the quotient of two integers is the one whose rest is smaller than the divisor and has the sign of the dividend |
| Powers.PowerSquare | netlib-f2c/src/expr.c:3205-3213 | one squaring halves the exponent |
| Powers.PowerGrows | netlib-f2c/libf2c/pow_ii.c:27-33 | powers of a base beyond 1 at least double, so no partial power is larger than the result |
| Powers.NegativePower | netlib-f2c/src/expr.c:3183-3196 | a negative power exists unless the base is zero; it is zero beyond the units and the sign pattern of the power for them |
| ConstantPowers.CheckExact | netlib-f2c/src/expr.c:3321-3332 | dividing a wrapped product by one factor gives the other if and only if the product fits a long |
| ConstantPowers.Product | netlib-f2c/src/expr.c:3321-3332 | consbinop's product wraps, and reports overflow if and only if it does not fit |
| ConstantPowers.PartFits | netlib-f2c/src/expr.c:3205-3213 | if a power fits a long, so does every smaller one |
| ConstantPowers.PowerLoop | netlib-f2c/src/expr.c:3205-3213 | the squaring loop reports overflow if and only if the n-fold product does not fit a long, and otherwise computes it |
| ConstantPowers.Conspower | netlib-f2c/src/expr.c:3108-3214 | reports a bad power exactly for a negative power of a base other than 1 and -1, overflow exactly if the power does not fit a long, and otherwise computes a ** n |
| Powers.PowII | netlib-f2c/libf2c/pow_ii.c:8-35 | the run-time power is the same value as the folded one wherever there is one, and faults exactly where there is none |
| Mkexpr.MkBinary | netlib-f2c/src/expr.c:2083-2437 | two integer constants under +, * or exact / fold to one integer constant; the recursion of mkexpr on regrouped operands terminates |
| MkexprValue.LogicalBit | netlib-f2c/src/expr.c:2328-2350 | a sound logical expression is 0 or 1 wherever it has a value |
| MkexprValue.CktypeIs | netlib-f2c/src/expr.c:2451-2620 | cktype gives arithmetic the longer integer type, logical operations and comparisons LOGICAL, and an error exactly for operands of the wrong or of different kinds |
| MkexprValue.FoldKeeps | netlib-f2c/src/expr.c:2650-2942 | folding two constants gives their value, outside remainder by zero and the reported powers |
| MkexprValue.UnaryKeeps | netlib-f2c/src/expr.c:2299-2325 | negation and NOT, with double ones removed, keep the value |
| MkexprValue.FactorsKeeps | netlib-f2c/src/expr.c:2186-2222 | (x * c) op d regrouped as x * (c op d) keeps the value |
| MkexprValue.MulopKeeps | netlib-f2c/src/expr.c:2173-2222 | the rules for 1, -1, shifts and grouped factors keep the value |
| MkexprValue.AddopKeeps | netlib-f2c/src/expr.c:2225-2294 | the rules for 0, grouped terms and (i + c) - (i + d) keep the value, except that a constant too low to be negated is added instead of subtracted |
| MkexprValue.BinaryKeeps | netlib-f2c/src/expr.c:2083-2437 | so does mkexpr on every binary operator |
| MkexprValue.MkexprKeepsValue | netlib-f2c/src/expr.c:2083-2437 | mkexpr divides by zero itself if and only if it folds a remainder by zero or regroups (x * c) / 0; reports an error if and only if a constant has a bad power; and otherwise keeps the value in every environment if and only if it does not meet (x + c) - d with d too low to be negated |
| MkexprValue.LossyExample | netlib-f2c/src/expr.c:2245-2274 | (i + 1) - (-2147483648) becomes i + (-2147483647) |
| MkexprValue.BuildKeepsValue | netlib-f2c/src/expr.c:2083-2437 | an expression built bottom up has the value of its source wherever that has one, and building it does not fault, if no step meets the lossy case, a reported power or an undefined shift |
| MkexprValue.ConstantsFold | netlib-f2c/src/expr.c:2650-2942 | an expression of constants becomes one constant, its value |
| MkexprValue.BinarySettled | netlib-f2c/src/expr.c:2083-2437 | mkexpr makes fully simplified expressions from fully simplified operands |
| MkexprValue.BuildTwice | netlib-f2c/src/expr.c:2083-2437 | simplifying what has been simplified changes nothing |
| MkexprReduced.MkShrinks | netlib-f2c/src/expr.c:2089-2440 | an operation mkexpr has simplified is never larger than it was |
| MkexprReduced.LeftNoRedex | netlib-f2c/src/expr.c:2128-2300 | what mkexpr leaves as it is is none of the forms its rules are for: an operation on constants, with a neutral constant, with a constant in front or next to one it can be joined with, or a difference of places in one array |
| MkexprReduced.BuildReduced | netlib-f2c/src/expr.c:2089-2440 | no part of an expression built by mkexpr has such a form |
| DataVisits.LoopTrips | netlib-f2c/src/data.c:111-162 | an implied DO gives its list once for each trip of section 11.10 of ANSI X3.9-1978, with lb + k * diff for its variable, for either sign of the step, and not at all for a zero step |
| DataVisits.WholeArray | netlib-f2c/src/data.c:181-196 | a whole array gives each element once, in order, and an array of no elements its first |
| DataVisits.TripCountStep | netlib-f2c/src/data.c:155-156 | the loop test agrees with the iteration count of the standard |
| DataVisits.WeaveWoven | netlib-f2c/src/gram.dcl:265-288 | the circular chain the grammar builds holds the list, each implied DO's list leading back to its entry |
| DataSteps.TurnedRest | netlib-f2c/src/data.c:105-236 | one turn of nextdata's loop makes the next visits of the nested list and leaves the others |
| DataSteps.EnterStands | netlib-f2c/src/data.c:119-160 | entering an implied DO: its bounds, flag and rpllist entry stand for the place inside it |
| DataSteps.AgainStands | netlib-f2c/src/data.c:117-160 | an active implied DO goes around again with its variable moved on |
| DataSteps.LeaveStands | netlib-f2c/src/data.c:163-178 | an exhausted implied DO is left: flag and rpllist entry are gone and the walk is after it |
| DataSteps.NestedReplaces | netlib-f2c/src/data.c:148-153 | rpllist holds the variables of exactly the implied DOs around the place, innermost first |
| DataIter.TakeTargets | netlib-f2c/src/data.c:93-237 | what one call takes is the first target still to come, and the end exactly if there is none |
| DataIter.PairsAt | netlib-f2c/src/data.c:73-85 | the k-th constant goes to the k-th target |
| DataIter.CopiesGiven | netlib-f2c/src/data.c:47-73 | an entry n*c stands for n copies of c, an entry c for one, and an entry with a bad count or no constant for none |
| DataIter.Statement.constructor | netlib-f2c/src/gram.dcl:265-288 | a freshly parsed list has all its visits before it |
| DataIter.Statement.Activated | netlib-f2c/src/data.c:119-147 | the bounds are evaluated under the variables around, and the DO made active exactly if all are constant |
| DataIter.Statement.TurnDo | netlib-f2c/src/data.c:108-178 | one turn at an implied DO |
| DataIter.Statement.VisitPrim | netlib-f2c/src/data.c:181-229 | one turn at a primary: the target, or the errors that keep it from being returned |
| DataIter.Statement.Nextdata | netlib-f2c/src/data.c:93-237 | returns the next target of the recursive unrolling, with the errors reported before it, or NULL when there is none; it always returns |
| DataIter.Statement.Dataval | netlib-f2c/src/data.c:31-90 | gives n copies of a constant to the next targets, or notes that there are too many; a count that is no constant or is negative, or else a value that is no constant, is reported and gives nothing |
| DataIter.Statement.Initialize | netlib-f2c/src/gram.dcl:170-193 | the whole value list: the pairs are targets and constants in order, too many is reported exactly if there are more constants than targets, too few exactly if there are fewer, and each faulty entry is reported, in order |
| Sections.ChosenIsEnum | netlib-f2c/libf2c/rsne.c:441-466 | the column-major addresses of a section are counted through from its first element in steps of unit times stride |
| Sections.EnumSplits | netlib-f2c/libf2c/rsne.c:492-500 | the whole enumeration is a block of adjacent elements at each place the later dimensions reach |
| Sections.MoreContiguous | netlib-f2c/libf2c/rsne.c:492-496 | a full dimension of stride 1 makes the block before it longer |
| Sections.Carried | netlib-f2c/libf2c/rsne.c:577-585 | a carry of the odometer leads to the next place of the enumeration |
| Sections.CarryStep | netlib-f2c/libf2c/rsne.c:502-508 | the adjusted step of a dimension takes the address over the carry into it |
| Sections.ChosenInside | netlib-f2c/libf2c/rsne.c:441-474 | the addresses of a section within bounds lie within the array |
| Sections.InDimensionEach | netlib-f2c/libf2c/rsne.c:243-265 | the first and the last subscript of a triple lie in the dimension if and only if all do |
| Sections.ChosenDistinct | netlib-f2c/libf2c/rsne.c:441-474 | and no element is named twice |
| Sections.HornerSummed | netlib-f2c/src/expr.c:1611-1618 | suboffset's Horner form of a subscript and the running sum of x_rsne are the same offset |
| NamelistSection.LocatedAt | netlib-f2c/libf2c/rsne.c:464-474 | the running sum less the base offset, times the element size, is the address of the first element |
| NamelistSection.SpanReaches | netlib-f2c/libf2c/rsne.c:243-265 | the last element of x1:x2:x3 is the last that does not lie beyond x2; if x2 lies the wrong way by less than a stride there is one element, though the standard has none |
| NamelistSection.TailGrows | netlib-f2c/libf2c/rsne.c:456-458 | the span left after each dimension divides exactly and is at least the next dimension |
| NamelistSection.SectionFits | netlib-f2c/libf2c/rsne.c:531-537 | the blocks of a section within bounds make up its addresses, once each, and none reaches past the end of the array |
| NamelistSection.Walk.Getdimen | netlib-f2c/libf2c/rsne.c:227-268 | fails with 123 exactly for a zero stride or an extent out of range, and otherwise fills in the dimension |
| NamelistSection.Walk.Locate | netlib-f2c/libf2c/rsne.c:441-474 | a section within bounds is accepted; dimensions, first address and element count are those of the section |
| NamelistSection.Walk.Collapse | netlib-f2c/libf2c/rsne.c:492-500 | the dimensions skipped are one block of adjacent elements, however many there are |
| NamelistSection.Walk.AdjustDeltas | netlib-f2c/libf2c/rsne.c:501-509 | each remaining step is reduced by what the remaining dimensions before it reach |
| NamelistSection.Walk.Advance | netlib-f2c/libf2c/rsne.c:577-585 | the odometer moves the address to the next place, or reports that there is none |
| NamelistSection.Walk.Read | netlib-f2c/libf2c/rsne.c:530-587 | blocks are read at every place of the enumeration in order, and no others |
| NamelistSection.Walk.Section | netlib-f2c/libf2c/rsne.c:441-587 | a strided section within bounds has each of its elements read once, in column-major order, starting at its first |
| RecordOverlay.PutColumns | netlib-f2c/libf2c/wrtfmt.c:10-68 | a column holds what was last put there, and a blank if it was only skipped |
| RecordOverlay.PutPut | netlib-f2c/libf2c/wrtfmt.c:190-223 | text put in pieces is put as a whole |
| RecordOverlay.TrailingMoves | netlib-f2c/libf2c/wrtfmt.c:346-365 | moves at the end of a record add nothing to it |
| RecordBuffer.Recorder.Bufadj | netlib-f2c/libf2c/open.c:43-69 | the buffer grows past the position asked for and keeps its characters |
| RecordBuffer.Recorder.Putc | netlib-f2c/libf2c/open.c:99-110 | a character replaces what stood at the position, or extends the record, growing the buffer if need be |
| RecordBuffer.Recorder.Settle | netlib-f2c/libf2c/wrtfmt.c:47-68 | the delayed cursor move pads with blanks up to the position and changes nothing else; it fails exactly left of the record |
| RecordBuffer.Recorder.PutText | netlib-f2c/libf2c/wrtfmt.c:190-223 | characters after any moves are put where an immediate cursor would put them |
| RecordBuffer.Recorder.Emit | netlib-f2c/libf2c/open.c:88-95 | everything before the terminator is written, NUL characters included |
| RecordBuffer.Recorder.Putbuf | netlib-f2c/libf2c/open.c:71-97 | the record up to its high-water mark and the given character reach the file |
| RecordBuffer.Recorder.EndRecord | netlib-f2c/libf2c/wsfe.c:8-15 | the record and a newline are written and a new record is empty |
| RecordBuffer.Recorder.End | netlib-f2c/libf2c/wsfe.c:17-31 | the same at the end of the statement, without the newline after a $ descriptor |
| RecordBuffer.Recorder.Do | netlib-f2c/libf2c/wrtfmt.c:337-374 | each positioning descriptor is one step of the record rules |
| RecordBuffer.Recorder.Write | netlib-f2c/libf2c/wrtfmt.c:337-374 | for every sequence of puts, T, TL, TR, X and slash, the file gets exactly the records the immediate overlay rules of section 13.5.3 give |
| ComplexPowers.PowReciprocal | netlib-f2c/libf2c/pow_zi.c:28-32 | powers of reciprocals are reciprocals of powers |
| ComplexPowers.Z_div | netlib-f2c/libf2c/z_div.c:17-46 | the quotient by ratios is the exact quotient, and only division by zero has none |
| ComplexPowers.PowZI | netlib-f2c/libf2c/pow_zi.c:20-56 | the power is the n-fold product, or the reciprocal of it for a negative exponent; it fails exactly for a negative power of zero |
| Numerals.ShowValue | netlib-f2c/libf2c/fmtlib.c:39-45 | the numeral of a number amounts to it and has no zero in front |
| IntegerEdit.DigitsFit | netlib-f2c/libf2c/fmtlib.c:2-47 | no 64-bit integer has more digits than f__icvt's buffer has cells, in base 8 or 10 |
| IntegerEdit.Editor.Icvt | netlib-f2c/libf2c/fmtlib.c:26-47 | the digits of the absolute value, that of the lowest integer included, end at the last cell but one |
| IntegerEdit.Editor.Wrt_I | netlib-f2c/libf2c/wrtfmt.c:125-152 | writes the field of Iw or Ow: sign and digits right-justified, or asterisks if they do not fit |
| IntegerEdit.Editor.Wrt_IM | netlib-f2c/libf2c/wrtfmt.c:153-189 | writes the field of Iw.m, with zero as blanks for m zero |
| IntegerField.RoundTripI | netlib-f2c/libf2c/wrtfmt.c:125-152 | a field of Iw or Ow has its width, and is read as the integer if it was wide enough and refused otherwise, in both blank modes |
| IntegerField.RoundTripIM | netlib-f2c/libf2c/wrtfmt.c:153-189 | the same for Iw.m |
| IntegerField.ZeroAsBlanks | netlib-f2c/libf2c/wrtfmt.c:173-181 | Iw.0 writes zero as blanks unless signs are asked for and the width is 1 |
| IntegerField.WrappedSnoc | netlib-f2c/libf2c/rdfmt.c:140-153 | one more character of a field, on a longint that wraps |
| IntegerEdit.Editor.Rd_I | netlib-f2c/libf2c/rdfmt.c:101-170 | reads the field before the next comma or end of record: blanks, a sign, digits with blanks as zeros or nothing, modulo 2 ** 64, and refuses everything else |
| IntegerEdit.Editor.WriteReadI | netlib-f2c/libf2c/wrtfmt.c:125-152 | any 64-bit integer written in base 8 or 10 and read back at the same width is the integer, exactly if its field was wide enough, in both blank modes and whatever follows |
| IntegerEdit.Editor.WriteReadIM | netlib-f2c/libf2c/wrtfmt.c:153-189 | the same for Iw.m |
| StringMoves.S_copy | netlib-f2c/libf2c/s_copy.c:22-53 | the target gets what the source was, cut or padded with blanks, and nothing else changes, for every overlap |
| StringMoves.Scan | netlib-f2c/libf2c/s_cat.c:47-64 | the scan finds how many sources are needed, and that none of them is destroyed before it is copied if no buffer is taken |
| StringMoves.CatInto | netlib-f2c/libf2c/s_cat.c:67-77 | the loops store the sources as they were, cut or padded, if none is in the way |
| StringMoves.S_cat | netlib-f2c/libf2c/s_cat.c:45-83 | the target gets the sources as they were, concatenated, cut or padded, and nothing else changes, for every overlap |
| Pass1RoundTrip.IntScans | netlib-f2c/src/format.c:2396-2406 | fscanf reads back a printed integer and stops behind it |
| Pass1RoundTrip.ReadsBack | netlib-f2c/src/format.c:206-321 | reading at the text of any tree gives the tree, and leaves what follows up to a newline that the next token skips |
| Pass1RoundTrip.AllRead | netlib-f2c/src/format.c:721-737 | so do any number of trees in a row |
| Pass1RoundTrip.TextsDiffer | netlib-f2c/src/p1output.c:100-169 | the text of a tree determines it and where it ends |
| Pass1File.Writer.P1_expr | netlib-f2c/src/p1output.c:100-169 | appends the text of the tree |
| Pass1File.Writer.P1_list | netlib-f2c/src/p1output.c:319-343 | appends the count and the elements |
| Pass1File.Writer.P1_for | netlib-f2c/src/p1output.c:564-578 | appends the three trees behind the token |
| Pass1File.Reader.Do_format | netlib-f2c/src/format.c:206-321 | consumes exactly what the grammar of the file reads |
| Pass1File.Reader.Do_p1_expr | netlib-f2c/src/format.c:768-816 | the same for an expression line and its operands |
| Pass1File.Reader.Do_p1_list | netlib-f2c/src/format.c:996-1050 | the same for a list |
| Pass1File.ForAndBack | netlib-f2c/src/format.c:721-737 | the three expressions of a FOR line come back as they were written |
| Decimals.TextParses | netlib-f2c/src/cds.c:79-153 | every spelling of a numeral is read as its parts |
| Decimals.ParsedText | netlib-f2c/src/cds.c:79-153 | what is read is spelled so |
| DecimalValue.NormalKeeps | netlib-f2c/src/cds.c:79-131 | digits without zeros at either end and the place of the last one have the value of the numeral |
| DecimalValue.NormalUnique | netlib-f2c/src/cds.c:154-193 | two such forms of the same amount are the same |
| CanonicalDecimal.AcceptsNumerals | netlib-f2c/src/cds.c:142-153 | exactly the numerals are accepted |
| CanonicalDecimal.CanonicalKeeps | netlib-f2c/src/cds.c:62-194 | the result is a numeral of the same sign and the same exact value |
| CanonicalDecimal.CanonicalTwice | netlib-f2c/src/cds.c:62-194 | the result is left as it is |
| CanonicalDecimal.CanonicalDecides | netlib-f2c/src/cds.c:62-194 | two numerals have the same result if and only if sign and exact value agree |
| CanonicalDecimal.WhenExponent | netlib-f2c/src/cds.c:147-165 | an exponent is written exactly for numbers that would end in more than two zeros or begin with more than two behind the point |
| Cds.Cds | netlib-f2c/src/cds.c:62-194 | the single pass over the digits and the writing loops give the canonical numeral, or none for text that is no numeral |
| FramedRecords.FrameAt | netlib-f2c/libf2c/sue.c:67-87 | every record of a file of frames is found where it starts, with its length on both sides |
| FramedRecords.BackToPrevious | netlib-f2c/libf2c/backspac.c:45-50 | from the start of a record BACKSPACE leads to the start of the one before it |
| SequentialFile.Unit.WriteRecord | netlib-f2c/libf2c/sue.c:48-81 | the parts of a WRITE list become one record behind those before, framed by its length, and the rest of the file stays where it was |
| SequentialFile.Unit.ReadRecord | netlib-f2c/libf2c/sue.c:29-87 | a READ gets what was written, whole or in part, and stands at the next record, or the end of the file if there is none; after a WRITE it is the end exactly if less than a mark lies past the position |
| SequentialFile.ReadsWhatNobodyWrote | netlib-f2c/libf2c/sue.c:61-62 | after REWIND a long record is overwritten by a shorter one and a READ makes a record of what is left of it |
| SequentialFile.Unit.Rewind | netlib-f2c/libf2c/rewind.c:15-30 | the position is the start of the first record, what follows the last WRITE is cut off, and the unit remembers that it was written |
| SequentialFile.Unit.Backspace | netlib-f2c/libf2c/backspac.c:26-50 | steps over the record before the position; at the initial point it has no effect if and only if the file is empty and an uninitialised variable is not too low |
| SequentialFile.ScanBack | netlib-f2c/libf2c/backspac.c:51-72 | the backward scan in steps of 64 characters finds the start of the last line before the position, or that the text does not end in a newline |
| NameTable.CNamesDiffer | netlib-f2c/src/misc.c:426-434 | distinct names have distinct C names |
| NameTable.CNameFree | netlib-f2c/src/misc.c:430-470 | no C name is a C keyword |
| NameTable.Names.Cvarname | netlib-f2c/src/misc.c:426-470 | the loops compute the C name: with two underscores more exactly for names with an underscore and for keywords |
| NameTable.SomeEmpty | netlib-f2c/src/misc.c:447-448 | the table always has an empty slot, so that probing ends |
| NameTable.NotThere | netlib-f2c/src/misc.c:441-445 | an empty slot on its probe shows that a name is not in the table |
| NameTable.EnteredGood | netlib-f2c/src/misc.c:447-450 | entering a name at the first empty slot of its probe keeps every probe intact |
| NameTable.Names.Mkname | netlib-f2c/src/misc.c:411-470 | finds the one entry of the name, or makes it, leaving the others; fails exactly if the name is new and the table full |

## Left out

- FormatUnit.Unit.Write: format widths are not 0 and parentheses nest at most nine deep, because beyond that the code itself loses a count or leaves its arrays, as FormatWidths.PresentsExactly says; transfers are assumed to succeed, so the returns of do_fio on an error of an edit routine are not modelled.
- FormatUnit.Unit.Pars_f: repeat counts and widths are unbounded integers, not C ints; reading past the terminator, which a format ending inside Hollerith data can cause, is taken to yield NUL.
- FormatSpelling.SpellingReads: field widths of 0 and signed X and Hollerith counts, which the code takes and the standard does not have, are not among the spellings; which texts that are no spellings are accepted is stated against the grammar of FormatParse only.
- Heap.Heap.Malloc: sizes are counted in whole 8-byte words with a 16-byte header, the break is aligned, and sizes stay below the limit at which the casts to int and unsigned would lose bits; sbrk is a fixed reserve of memory.
- Heap.Heap.Realloc: a failing realloc has already given the block back, as in the code.
- calloc is malloc and a loop that clears memory.
- Equiv.Equivalence.Doequiv: offsets come evaluated; declaring names, padding of one-dimensional subscripts, the alignment message, which is not counted as an error, and the type of a class are not modelled.
- Mkexpr.MkBinary: integers are unbounded and types are INTEGER*1, *2, *4 and LOGICAL; real, complex and character constants, 8-byte integers, bit operators, MIN, MAX, ABS, calls, concatenation and assignment operators are not modelled, nor is the warning about division by zero. fixtype is taken to have been applied.
- ConstantPowers.Conspower: integer bases only, on longs of 64 bits that wrap, as they do on common machines; the check's quotient of the lowest long by -1, which C leaves undefined, is taken as the exact one; consbinop's checks for sums are not modelled.
- DataIter.Statement.Nextdata: mklhs and fixtype enter as functions of the implied-DO variables; storage class changes and the conversion and printing of values in setdata are not modelled.
- NamelistSection.Walk.Section: only sections with an explicit stride, since without one x_rsne takes its other mode, which reads on past the section; numbers come scanned, substring bounds come checked, and the input is assumed to hold enough values.
- RecordBuffer.Recorder.Write: a character constant put left of the record ends the run; with an ERR= or IOSTAT= specifier do_fio goes on after it. Failure of malloc or of the stream, and a buffer length beyond an int, are not modelled.
- Internal files (iio.c) have records of fixed length and their own cursor; only the external record is modelled.
- Formatted reading other than rd_I: rd_ed, rd_ned and reversion on input.
- IntegerEdit.Editor.Wrt_I: values are those of the longest kind, INTEGER*8; the narrowing stores of rd_I for shorter ones are not modelled, nor list-directed input and the floating-point routines.
- ComplexPowers.PowZI: arithmetic is exact, without the rounding of double; pow_ci, pow_di and pow_ri are the same loop.
- StringMoves.S_cat: lengths are not negative; running out of memory for the buffer ends the run.
- Pass1RoundTrip.ReadsBack: statements other than FOR, external names, the literal pool and the structure copied for other addresses are not modelled; numbers are not cut to the fields they are stored in.
- Cds.Cds: exponents are unbounded; text is without NUL characters, as a C string is.
- NameTable.Names.Mkname: characters are not negative; the message about long names is not modelled.
- SequentialFile.Unit.ReadRecord: after a READ that asks for more than the record has, which ends with an error, the position is not stated; where a WRITE left a longer file, the result is stated byte by byte and not by records.
- Direct access, OPEN, CLOSE, ENDFILE and INQUIRE; streams are byte sequences that do not fail.
- The parser tables, declaration printing and pretty-printing of the translator, and the stdio side of the library.
