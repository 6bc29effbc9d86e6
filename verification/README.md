# Models of the CoreMark, printf, FIFO and evidence cores

This project models the algorithmic cores of the repository and proves what their
documentation promises of them, or the exact condition under which it holds.

| files | what they model |
|---|---|
| `Crc` | the CRC of CoreMark: the loops of `crcu8`/`crcu16`/`crcu32` against polynomial division over GF(2) |
| `ItemData`, `ListHeap`, `Comparators` | the list in memory: headers, items, find, reverse, relink, remove, undo; the comparators and the evaluation one of them caches |
| `Sequences`, `MergeOrder`, `Mergesort` | the in-place, bottom-up merge sort |
| `ListBench`, `ListInit`, `ListRuns` | the list benchmark, the construction of its list, and the iterations over it |
| `StateMachine`, `StateCounts`, `StateBench`, `StateInit` | the number scanner and its grammar, what its counters count, the state benchmark, the text it scans |
| `PrintfText`, `Directives`, `Printf`, `PrintfFacts`, `PrintfFields`, `PrintfFormats` | the tiny printf: its output as a text, what the characters of a directive say, the code that produces the output through a truncating sink, what the digits say, how they fill their field, and the way from the characters of a format to the text stored |
| `Fifo`, `FifoGate` | the parameterised FIFO and its recoded version |
| `AreaSum` | the memoised area sum over a module hierarchy |
| `Ascii`, `JsonText`, `ScrubClosure` | the scrub hash-closure check with its brace matcher and key reader |
| `HopChain` | the lineage check of a supersession record |

Code that changes state in the program does so here: list headers and items are objects
whose fields are reassigned, memory blocks, counters and the digit buffer are arrays, the
FIFOs and the area memo are classes. Each such method is proved against a specification
function or predicate, and the theorems are about those.

Numbers: CRC registers, item data and symbols are bit vectors of the program's width. The
`ee_s32` counters of the merge sort (`insize`, `nmerges`, `psize`, `qsize`, `i`) are a type of
their range, so every assignment to them is checked. The counters of the scanner wrap at 32 bits.
Everything else is unbounded, unless wrap-around is written out.

Clocks, git, the file system, SHA-256 and the JSON parser are parameters: inputs of a step,
functions from commits to hashes and from texts to parsed values.

## What the proofs show about the code

- The comment over `core_bench_list` says that the list ends in its original state. Every call leaves
  it so if and only if the positions strictly increase (`EveryCallRestores`). One call without the
  value sort does so exactly if the list is sorted by position, with equal positions in the order
  that its finds leave, which the caller can compute (`BenchList`, `RestoredAfter`).
- The comment in `core_list_init` says that mixed positions end up after those in sequence. That is
  exactly when all positions of a list of up to 257 differ (`ApartIffMixedBehind`). The seeds of the
  official runs meet it (`OfficialSeedsApart`), and then any number of iterations returns the list
  item by item (`InitAndIterate`). Seed 16 with a block of 2040 bytes does not, and one find loses
  the order of the list it builds (`SeedSixteenLosesOrder`).
- The comment in `core_bench_state` says that corruption is undone if the two seeds are equal.
  It is not enough: with low byte 0x2c a zero becomes a comma and stays one
  (`EqualSeedsNotEnough`). `RestoredIff` is the exact condition.
- The third scientific pattern of `core_init_state`, `-87e+832`, is no number for the scanner,
  which wants a dot in front of the exponent (`ThirdSciPatternIsInvalid`).
- The comment over `core_list_find` says that an index is looked for if it is not 0; the code
  does so if it is not negative. The model follows the code.
- The last line of the sort allows for an empty list, but the line that terminates the merged
  list has no tail then. `Sort` asks for a non-empty list.
- `printf` prints only the lower 32 bits in base 2 (`IntegerDirective`). Its digit buffer of 32 is
  too short for wide zero padding and high precision: the exact conditions are those of `FieldWidth`
  for the length, `IntegerDirective` for the text, and `SignIsKept` for the sign, which "%.32d"
  drops from every negative number (`SignIsLost`). `#` can take digits back instead of padding,
  exactly when the condition of `HashKeepsDigits` fails (`HashLosesDigits`).
- A stretch of hops can be dropped from a proved record unnoticed exactly if it ends at the hash it
  began with and, at the front, `superseded_by` names the next commit as well (`CompressionIsSeen`,
  `UnnoticedCompression`).

## Model

| member | source | states |
|---|---|---|
| `Crc.Crcu8` | smart_run/tests/cases/coremark/core_util.c:142-165 | the loop divides the eight message bits, lowest first, by the polynomial 0xA001 stands for |
| `Crc.ShiftOneBit` | smart_run/tests/cases/coremark/core_util.c:148-162 | toggling 0x4002, shifting and setting the top bit is one step of that division |
| `Crc.Crcu16` | smart_run/tests/cases/coremark/core_util.c:166-170 | two bytes are the division of the sixteen bits of the word |
| `Crc.Crcu32` | smart_run/tests/cases/coremark/core_util.c:171-175 | the 32-bit value is absorbed as its two 16-bit halves, the low one first |
| `Crc.DivideIsRemainder` | smart_run/tests/cases/coremark/core_util.c:142-178 | the register is the remainder of message times x^16 plus register by x^16 + x^15 + x^2 + 1: quotient times divisor plus remainder gives the dividend for this quotient and remainder and for no other |
| `Crc.CrcOfWordLinear` | smart_run/tests/cases/coremark/core_util.c:166-170 | the CRC of a word is XOR-linear in word and register together |
| `Crc.CrcLinear` | smart_run/tests/cases/coremark/core_util.c:142-178 | the CRC of any word sequence is XOR-linear in message and register together |
| `Crc.CrcOfWordIsSum` | smart_run/tests/cases/coremark/core_util.c:166-170 | a word can as well be added to the register before sixteen zeros are shifted in |
| `Crc.CrcOfWordBijective` | smart_run/tests/cases/coremark/core_util.c:166-170 | one to one and onto in the register for a fixed word, and in the word for a fixed register, with the inverse |
| `Crc.RegistersStayApart` | smart_run/tests/cases/coremark/core_util.c:166-178 | two registers agree after a message exactly if they agreed before |
| `Crc.OneChangedWordIsSeen` | smart_run/tests/cases/coremark/core_util.c:166-178 | messages that differ in exactly one word never have the same CRC |
| `ItemData.WithValueFacts` | smart_run/tests/cases/coremark/core_list_join.c:91-92 | caching sets the flag and the seven value bits and keeps the upper byte |
| `ItemData.RegenerateFacts` | smart_run/tests/cases/coremark/core_list_join.c:114-115 | rebuilding copies the upper byte down; it changes nothing exactly if the bytes are equal |
| `ItemData.UpperByteDecides` | smart_run/tests/cases/coremark/core_list_join.c:112-118 | a rebuilt item is determined by its upper byte |
| `ListHeap.Find` | smart_run/tests/cases/coremark/core_list_join.c:370-380 | the first header whose item matches, by position or by lower data byte, or null |
| `ListHeap.FirstMatchUnique` | smart_run/tests/cases/coremark/core_list_join.c:370-380 | first match: a match with none before it, the list's length if there is none |
| `ListHeap.Reverse` | smart_run/tests/cases/coremark/core_list_join.c:395-404 | the same headers in reverse, null-terminated |
| `ListHeap.MoveNextForward` | smart_run/tests/cases/coremark/core_list_join.c:157-162 | the header after the one found becomes the second of the list, which stays a list; nothing happens at the end |
| `ListHeap.MovedForwardPermutes` | smart_run/tests/cases/coremark/core_list_join.c:157-162 | no header is lost or doubled by that |
| `ListHeap.Remove` | smart_run/tests/cases/coremark/core_list_join.c:316-327 | the next header is unlinked and the two items change places |
| `ListHeap.UndoRemove` | smart_run/tests/cases/coremark/core_list_join.c:345-355 | inverse of the removal: the list is the one it was called on; the header put back is returned |
| `Comparators.CalcFunc` | smart_run/tests/cases/coremark/core_list_join.c:63-95 | a cached item is read and nothing changes; otherwise the value of its function is cached, the upper byte kept, and the CRC, the call history and the kept first results advance by exactly this evaluation |
| `Comparators.RunFunction` | smart_run/tests/cases/coremark/core_list_join.c:70-89 | the dispatch on bits 0-2, with the first non-zero result of each benchmark kept |
| `Comparators.EvaluatedIs` | smart_run/tests/cases/coremark/core_list_join.c:66-93 | which benchmark an item calls with which arguments: bits 0-2 select it, the replicated bits 3-6 are its type, at least 0x22 for the state benchmark; any other function returns the data itself; the first non-zero result is kept |
| `Comparators.ReplicatedDtype` | smart_run/tests/cases/coremark/core_list_join.c:71-76 | writing bits 3-6 twice is 17 times their value, raised to 34 for the state benchmark |
| `Comparators.Compare` | smart_run/tests/cases/coremark/core_list_join.c:101-118 | the difference of the items' keys as they are afterwards; both items settled, position and upper byte kept, settled items unchanged |
| `Comparators.CompareIdx` | smart_run/tests/cases/coremark/core_list_join.c:112-118 | difference of positions; the data is rebuilt only without results |
| `Comparators.CompareComplex` | smart_run/tests/cases/coremark/core_list_join.c:101-105 | difference of the cached values; both items are cached afterwards |
| `Comparators.SettledStays` | smart_run/tests/cases/coremark/core_list_join.c:63-118 | once settled, an item is not changed by any further comparisons |
| `MergeOrder.MergeStep` | smart_run/tests/cases/coremark/core_list_join.c:456-469 | taking the smaller head, the left one on a tie, keeps the merged part in order before both rests |
| `MergeOrder.RunCount` | smart_run/tests/cases/coremark/core_list_join.c:437-440 | the number of runs of width w is the length over w, rounded up |
| `MergeOrder.OrderUnique` | smart_run/tests/cases/coremark/core_list_join.c:426-492 | sorted and stable leave one result only |
| `Mergesort.Append` | smart_run/tests/cases/coremark/core_list_join.c:471-477 | the element is linked behind the output; the chains still to be merged keep their links |
| `Mergesort.ComesFromP` | smart_run/tests/cases/coremark/core_list_join.c:456-469 | which run the next element comes from; comparing records settled keys and changes none recorded before |
| `Mergesort.CompareHeads` | smart_run/tests/cases/coremark/core_list_join.c:463 | the comparator's answer is the difference of recorded keys, whatever it evaluates for the first time |
| `Mergesort.MergeRuns` | smart_run/tests/cases/coremark/core_list_join.c:450-478 | two neighbouring runs become one in order and stable, behind the output, from exactly their headers |
| `Mergesort.StepAlong` | smart_run/tests/cases/coremark/core_list_join.c:441-448 | q is the header behind the run at p, psize its length |
| `Mergesort.MergePass` | smart_run/tests/cases/coremark/core_list_join.c:433-484 | runs of width w become runs of width 2w of the same headers, null-terminated; the number of merges is half the number of runs, rounded up |
| `Mergesort.Terminate` | smart_run/tests/cases/coremark/core_list_join.c:484 | the merged chain becomes a null-terminated list |
| `Mergesort.Sort` | smart_run/tests/cases/coremark/core_list_join.c:426-492 | for every non-empty list and both comparators, the caching one with an arbitrary first evaluation that may depend on all evaluations before, and for any ranking comparator: a null-terminated list of exactly the same headers, sorted by the keys the items end up with, ties in the order before; from two headers on every item settled; none of the five 32-bit counters overflows |
| `Mergesort.DoublingStaysBelow` | smart_run/tests/cases/coremark/core_list_join.c:486-491 | while two merges or more are needed, the width is below the length of the list |
| `ListBench.OneFind` | smart_run/tests/cases/coremark/core_list_join.c:144-165 | one round: the first header sought, by position or by the low byte of the round, decides; without it or at the front the list is reversed, otherwise the header that stood in front of it comes second and all others in reverse; the head is the last header; a find counts with bit 9 if bit 0 is set, a miss with bit 8; the index sought goes up by one and wraps |
| `ListBench.OrderIsMovedByFind` | smart_run/tests/cases/coremark/core_list_join.c:147-162 | the specified order after a find is that one |
| `ListBench.FindRoundIsRound` | smart_run/tests/cases/coremark/core_list_join.c:144-169 | every specified round is a round in these terms, with the counts of finds and misses and the bits they add |
| `ListBench.NextRound` | smart_run/tests/cases/coremark/core_list_join.c:144-169 | the state after n + 1 finds is one such round behind the state after n |
| `ListBench.FindMany` | smart_run/tests/cases/coremark/core_list_join.c:142-169 | all rounds, for every number of finds and either sign of the index; the order stays a permutation |
| `ListBench.OrderAfterFindPermutes` | smart_run/tests/cases/coremark/core_list_join.c:147-162 | reversing and moving one header forward permutes the list |
| `ListBench.CrcWalk` | smart_run/tests/cases/coremark/core_list_join.c:179-182 | the CRC of the head's data, once for each header from the finder on |
| `ListBench.FindAndWalk` | smart_run/tests/cases/coremark/core_list_join.c:175-182 | the walk starts at the item found, or else at the second header |
| `ListBench.RemoveWalkRestore` | smart_run/tests/cases/coremark/core_list_join.c:174-186 | remove, walk and undo leave the list and every item pointer as they were; the CRC is that of the list without its second item |
| `ListBench.SortByValue` | smart_run/tests/cases/coremark/core_list_join.c:171-173 | only for a positive index the list is sorted by value |
| `ListBench.FindAndSort` | smart_run/tests/cases/coremark/core_list_join.c:132-173 | counters, order and items in front of the removal |
| `ListBench.FindSortRemove` | smart_run/tests/cases/coremark/core_list_join.c:132-186 | the same up to and including the undone removal, with the CRC so far |
| `ListBench.SortByIdxAndWalk` | smart_run/tests/cases/coremark/core_list_join.c:187-194 | the list in stable order of position, every item rebuilt, and the CRC of the last walk |
| `ListBench.BenchCrcIs` | smart_run/tests/cases/coremark/core_list_join.c:169-194 | the value returned is the CRC of the words taken in: the head's data once for each header from the one sought on, the first behind the head if there is none, then the last head's data for each header but the first, starting from four times the finds minus the misses plus the bits collected |
| `ListBench.BenchList` | smart_run/tests/cases/coremark/core_list_join.c:125-199 | for every list of three or more, any number of finds and either sign of the index: the same headers and item pointers, every item its rebuilt self; order and head are back if positions strictly increase, without the value sort exactly if the list meets RestoredAfter, a condition on the arguments, and with it exactly if the list is in stable order of position after the value sort; the value returned is the CRC of the specification |
| `ListBench.RestoredOrder` | smart_run/tests/cases/coremark/core_list_join.c:187-188 | the last sort gives the original order exactly if that is in order relative to the list it sorts |
| `ListBench.StrictIsInOrder` | smart_run/tests/cases/coremark/core_list_join.c:187-188 | strictly increasing positions meet this |
| `ListBench.OneFindShowsTies` | smart_run/tests/cases/coremark/core_list_join.c:144-165 | one find, for position 0, restores a list only if its positions strictly increase |
| `ListBench.LaterAfterFind` | smart_run/tests/cases/coremark/core_list_join.c:147-162 | a find reverses the order of any two headers, but for the one in front of the header found |
| `ListBench.EveryCallRestores` | smart_run/tests/cases/coremark/core_list_join.c:125-199 | every call restores the order if and only if positions strictly increase |
| `ListBench.ItemRestored` | smart_run/tests/cases/coremark/core_list_join.c:101-118 | caching and then rebuilding an item gives the rebuilt original |
| `ListInit.RegionsDisjoint` | smart_run/tests/cases/coremark/core_list_join.c:213-219 | headers and data items lie in disjoint regions inside the block |
| `ListInit.InsertNew` | smart_run/tests/cases/coremark/core_list_join.c:282-301 | inserts behind the point with a new header and item, or changes nothing if either region has no room |
| `ListInit.InsertItem` | smart_run/tests/cases/coremark/core_list_join.c:236-242 | one more insertion keeps what has been built; surplus insertions are refused |
| `ListInit.Fill` | smart_run/tests/cases/coremark/core_list_join.c:225-242 | all but one slot of the block are used, by the items built for them |
| `ListInit.Index` | smart_run/tests/cases/coremark/core_list_join.c:243-254 | the positions given: a fifth in sequence, the others mixed behind them |
| `ListInit.InitialDataRegenerated` | smart_run/tests/cases/coremark/core_list_join.c:237-241 | both bytes of the data built for an item are equal |
| `ListInit.InitialDataIsBuilt` | smart_run/tests/cases/coremark/core_list_join.c:237-241 | bits 0-2 are those of the item's number, bits 3-6 the low four of seed XOR number, bit 7 is clear, and the upper byte is the lower one |
| `ListInit.NumberedIsBuilt` | smart_run/tests/cases/coremark/core_list_join.c:225-255 | the first item, the sentinel and every other item of the list, data and position, in these terms: position by place for the first fifth, else mixed from place and seed |
| `ListInit.InitialIdxRange` | smart_run/tests/cases/coremark/core_list_join.c:243-254 | every mixed or sequential position is from 0 to below 0x7fff |
| `ListInit.Init` | smart_run/tests/cases/coremark/core_list_join.c:213-266 | for every block of 100 bytes or more and every seed: exactly blksize/20 - 3 headers, each with its own item, whose data and position are the bits of its number, place and seed that the source puts there; sorted stably by position, the bytes of every item equal, the first header first and the sentinel last |
| `ListInit.FirstAndLast` | smart_run/tests/cases/coremark/core_list_join.c:225-255 | the sort cannot move the first header and the sentinel |
| `ListInit.SeedWithEqualPositions` | smart_run/tests/cases/coremark/core_list_join.c:243-254 | a seed and block size for which two headers get the same position |
| `ListRuns.ApartIffMixedBehind` | smart_run/tests/cases/coremark/core_list_join.c:243-254 | the positions of a list of up to 257 headers all differ exactly if no mixed one falls among those in sequence |
| `ListRuns.InitializedIsStrict` | smart_run/tests/cases/coremark/core_list_join.c:213-266 | the list built has strictly increasing positions exactly if its seed and size keep them apart |
| `ListRuns.OfficialSeedsApart` | smart_run/tests/cases/coremark/core_main.c:304-325 | the seeds of the validation, performance and profile runs do, for the block sizes of these runs |
| `ListRuns.SeedSixteenLosesOrder` | smart_run/tests/cases/coremark/core_list_join.c:213-266 | the list built for seed 16 and 2040 bytes is not restored by one find for position 0 |
| `ListRuns.BenchOnce` | smart_run/tests/cases/coremark/core_list_join.c:125-199 | on a list with strictly increasing positions and rebuilt data a call changes nothing: headers, order, items; a backward call returns the same value each time |
| `ListRuns.Iterate` | smart_run/tests/cases/coremark/core_main.c:51-70 | after any number of iterations the list is the one before, and all backward calls have returned the same |
| `ListRuns.InitAndIterate` | smart_run/tests/cases/coremark/core_main.c:249-252 | for every block and seed that keep positions apart, the list built is still there after all iterations |
| `StateMachine.StateMeaning` | smart_run/tests/cases/coremark/core_state.c:184-277 | the machine is in a state exactly if the symbols read are what the grammar calls so, and invalid exactly if they begin no number |
| `StateMachine.TokenReads` | smart_run/tests/cases/coremark/core_state.c:184-277 | a call reads exactly the symbols of the slice it consumes, up to the terminator, through the first comma, or through the symbol that made it invalid |
| `StateMachine.TokenIsGrammatical` | smart_run/tests/cases/coremark/core_state.c:184-277 | the state returned is the grammar's for the slice; invalid means that the slice is the shortest that begins no number |
| `StateMachine.TokensPartition` | smart_run/tests/cases/coremark/core_state.c:59-68 | the tokens are not empty and together are the text before its terminator |
| `StateMachine.TokenBeforeNul` | smart_run/tests/cases/coremark/core_state.c:184-277 | a call never passes the terminator |
| `StateMachine.FinalCountsSum` | smart_run/tests/cases/coremark/core_state.c:59-68 | the final counts add up to the number of tokens |
| `StateMachine.SymbolClasses` | smart_run/tests/cases/coremark/core_state.c:168-277 | digits, signs, dot, exponent letters and comma by their characters |
| `StateCounts.TrackCountIsMarked` | smart_run/tests/cases/coremark/core_state.c:194-273 | over the tokens of the text and the grammar: the transition count of a state is the number of tokens with a symbol read in this state that leads out of it; that of the invalid state, of tokens invalid at their first symbol or behind a scientific number |
| `StateCounts.StartIsMarked` | smart_run/tests/cases/coremark/core_state.c:209-209 | for the start state, of tokens with a symbol |
| `StateCounts.FinalCountIsEnding` | smart_run/tests/cases/coremark/core_state.c:59-68 | the final count of a state is the number of tokens that stand for it, for the invalid one, that begin no number |
| `StateBench.ReadSymbol` | smart_run/tests/cases/coremark/core_state.c:194-273 | the switch: next state, and which transition counters go up by how much |
| `StateBench.Transition` | smart_run/tests/cases/coremark/core_state.c:184-277 | on every terminated text: the position behind the token, its state, and the counters, inside the block |
| `StateBench.Scan` | smart_run/tests/cases/coremark/core_state.c:58-68 | every token is counted under its state, every tracked transition under its own, modulo 2^32 |
| `StateBench.Corrupt` | smart_run/tests/cases/coremark/core_state.c:69-74 | exactly the bytes on the stride that are no commas are XORed |
| `StateBench.CorruptedByte` | smart_run/tests/cases/coremark/core_state.c:69-74 | by its position: a byte at a multiple of the step that is no comma is XORed, every other stays |
| `StateBench.CorruptedTerminated` | smart_run/tests/cases/coremark/core_state.c:69-85 | with strides of two or more one of the last two zeros survives |
| `StateBench.ByteRestored` | smart_run/tests/cases/coremark/core_state.c:87-92 | a byte comes back exactly if it is a comma, or the seeds agree and it is not turned into one |
| `StateBench.RestoredIff` | smart_run/tests/cases/coremark/core_state.c:69-92 | the block is restored exactly if, for every visited byte that is no comma, the seeds agree and it is not the comma XORed with the first |
| `StateBench.BenchState` | smart_run/tests/cases/coremark/core_state.c:43-99 | both scans stop inside the block; the final block and the CRC of all counters over both texts |
| `StateBench.CountsCrc` | smart_run/tests/cases/coremark/core_state.c:93-98 | final and transition count of each state in turn |
| `StateBench.CrcOfCountsIs` | smart_run/tests/cases/coremark/core_state.c:93-98 | which is the CRC of their words, the low half of a counter before the high half |
| `StateBench.CountersInOrder` | smart_run/tests/cases/coremark/coremark.h:121-130 | the counters stand in the order of the enumerators, each the sum over both scans modulo 2^32 |
| `StateInit.InitState` | smart_run/tests/cases/coremark/core_state.c:116-166 | the block: patterns with commas while there is room, then zeros, at least two |
| `StateInit.BlockIsListed` | smart_run/tests/cases/coremark/core_state.c:116-166 | in other words: the patterns of the seeds behind the one given, each with a comma, the largest number that leaves two bytes, and zeros behind them |
| `StateInit.PatternKind` | smart_run/tests/cases/coremark/core_state.c:133-155 | bits 0-2 of a seed select the kind: 0 to 2 integers, 3 and 4 floats, 5 and 6 scientific numbers, 7 errors; bits 3 and 4 the variant |
| `StateInit.IntPatternSpelling` | smart_run/tests/cases/coremark/core_state.c:102-102 | the four integer patterns, character by character |
| `StateInit.FloatPatternSpelling` | smart_run/tests/cases/coremark/core_state.c:103-103 | the four float patterns |
| `StateInit.SciPatternSpelling` | smart_run/tests/cases/coremark/core_state.c:104-104 | the four scientific patterns |
| `StateInit.ErrPatternSpelling` | smart_run/tests/cases/coremark/core_state.c:105-105 | the four broken patterns |
| `StateInit.BothScansStop` | smart_run/tests/cases/coremark/core_state.c:58-85 | on every block built, both scans find a zero inside it |
| `StateInit.OfficialSeedsRestore` | smart_run/tests/cases/coremark/core_state.c:87-92 | seeds with low byte 0 or 0x15 restore every block |
| `StateInit.EqualSeedsNotEnough` | smart_run/tests/cases/coremark/core_state.c:88 | equal seeds with low byte 0x2c do not |
| `StateInit.IntPatternIsInt` | smart_run/tests/cases/coremark/core_state.c:102 | the integer patterns are integers of the grammar |
| `StateInit.FloatPatternIsFloat` | smart_run/tests/cases/coremark/core_state.c:103 | the float patterns are floats |
| `StateInit.SciPatternIsScientific` | smart_run/tests/cases/coremark/core_state.c:104 | the scientific patterns but the third are scientific |
| `StateInit.ThirdSciPatternIsInvalid` | smart_run/tests/cases/coremark/core_state.c:104 | the third is invalid after four bytes |
| `StateInit.PatternIsOneToken` | smart_run/tests/cases/coremark/core_state.c:101-166 | every other numeric pattern with its comma is scanned as one token of its kind |
| `Printf.Put` | smart_run/tests/lib/newlib_wrap/printf.c:162-174 | a character is stored only below the limit of a buffer |
| `Printf.StoredConcat` | smart_run/tests/lib/newlib_wrap/printf.c:162-174 | putting two texts after each other is putting their concatenation |
| `Printf.OutRev` | smart_run/tests/lib/newlib_wrap/printf.c:228-252 | blanks, the buffer backwards, blanks; the index goes up by the length of that text |
| `Printf.NtoaFormat` | smart_run/tests/lib/newlib_wrap/printf.c:256-306 | padding, prefix and sign, never past the 32-byte buffer |
| `Printf.StoreDigits` | smart_run/tests/lib/newlib_wrap/printf.c:318-326 | the digit loop stores the digits, least significant first, at most 32 |
| `Printf.Ntoa` | smart_run/tests/lib/newlib_wrap/printf.c:310-357 | prints the text of the number |
| `Printf.Atoi` | smart_run/tests/lib/newlib_wrap/printf.c:217-224 | the number read and where it ends |
| `Printf.ReadFlags` | smart_run/tests/lib/newlib_wrap/printf.c:630-641 | each of the five flags is set exactly if its character is among the flag characters, and no other flag is |
| `Directives.FlagsAreRead` | smart_run/tests/lib/newlib_wrap/printf.c:630-641 | the specification of the flags says the same |
| `Directives.NumberIsRead` | smart_run/tests/lib/newlib_wrap/printf.c:217-224 | a number read is what the longest run of digits denotes, modulo 2^32 |
| `Directives.FieldsAreRead` | smart_run/tests/lib/newlib_wrap/printf.c:630-709 | the specified fields are those that the characters spell |
| `Printf.ReadFields` | smart_run/tests/lib/newlib_wrap/printf.c:630-709 | the fields of a directive as its characters spell them, with the arguments used: every part as long as it can be; each flag set by its own character alone, the left one also by a negative width; width and precision from digits, from an argument, or absent; the longest length modifier |
| `Printf.PutInteger` | smart_run/tests/lib/newlib_wrap/printf.c:713-785 | base, flags and value of an integer directive |
| `Printf.PutChar` | smart_run/tests/lib/newlib_wrap/printf.c:805-823 | a character padded to the width |
| `Printf.Strnlen` | smart_run/tests/lib/newlib_wrap/printf.c:200-206 | the smaller of length and limit, cut to 32 bits |
| `Printf.PutString` | smart_run/tests/lib/newlib_wrap/printf.c:825-849 | a string cut to the precision and padded from its 32-bit length |
| `PrintfText.StringFieldIsPadded` | smart_run/tests/lib/newlib_wrap/printf.c:825-849 | which for strings below 2^32 characters is padding to the width |
| `Printf.PutDirective` | smart_run/tests/lib/newlib_wrap/printf.c:711-878 | the text of every directive |
| `Printf.PutAll` | smart_run/tests/lib/newlib_wrap/printf.c:615-879 | over the whole format, the sink gets exactly its text, from index 0 on; a directive that the terminator cuts short makes reading go on behind it |
| `Printf.Vsnprintf` | smart_run/tests/lib/newlib_wrap/printf.c:606-886 | the value returned is the length of the whole text, whatever the sink and the size stated; a size n > 0 leaves the first min(length, n - 1) characters and a NUL, everything behind the NUL as before; with size 0 nothing is written, as section 7.21.6.5 of ISO/IEC 9899:2011 asks; the buffer need only hold what is written, as for sprintf |
| `PrintfFormats.PlainText` | smart_run/tests/lib/newlib_wrap/printf.c:615-625 | what contains no percent sign is printed as it stands and takes no argument |
| `PrintfFormats.DirectiveInText` | smart_run/tests/lib/newlib_wrap/printf.c:615-879 | a directive prints the text of the fields that its characters spell, takes one argument if it converts one, and reading goes on behind its specifier |
| `PrintfFormats.IntegerFlagsAre` | smart_run/tests/lib/newlib_wrap/printf.c:713-750 | which flags an integer conversion goes by: signs for d and i, prefix outside base 10, capitals for X, no zeros with a precision, the others as given |
| `PrintfFormats.IntegerValueIs` | smart_run/tests/lib/newlib_wrap/printf.c:751-783 | the argument is cut to 64, 8, 16 or 32 bits as the length modifier says, as a signed number for d and i |
| `PrintfFormats.IntegerFormat` | smart_run/tests/lib/newlib_wrap/printf.c:615-785 | from the characters %, 0 or - or none, a numeral for the width, and one of d i u x X o b to the whole text: the numeral of the 32-bit argument in its base and case without leading zeros, with its sign, filled up with blanks behind or in front, or with zeros up to the 32 of the buffer |
| `PrintfFormats.SnprintfInteger` | smart_run/tests/lib/newlib_wrap/printf.c:606-886 | and this text with a NUL is what the buffer holds afterwards, everything behind it as before |
| `PrintfFormats.FourHexDigits` | smart_run/tests/cases/coremark/core_main.c:377-377 | %04x of 31 is 001f |
| `PrintfFormats.CharacterDirective` | smart_run/tests/lib/newlib_wrap/printf.c:805-823 | %c is the low byte of its argument between blanks up to the width |
| `PrintfFormats.StringDirective` | smart_run/tests/lib/newlib_wrap/printf.c:825-849 | %s is the string, or as much of it as the precision says, padded to its width exactly if there is a precision, or the length is below 2^32, or its remainder modulo 2^32 still reaches the width |
| `PrintfFormats.PointerDirective` | smart_run/tests/lib/newlib_wrap/printf.c:851-867 | %p without flags is the address as 16 hexadecimal digits in capitals |
| `PrintfFormats.OtherDirective` | smart_run/tests/lib/newlib_wrap/printf.c:869-878 | any other specifier, such as a second percent sign, prints itself |
| `PrintfFacts.DigitsDenote` | smart_run/tests/lib/newlib_wrap/printf.c:318-326 | the digits denote the value modulo base^n |
| `PrintfFacts.DigitsAreFew` | smart_run/tests/lib/newlib_wrap/printf.c:318-326 | a value below base^k has at most k digits |
| `PrintfFacts.NumeralOf64Bits` | smart_run/tests/lib/newlib_wrap/printf.c:310-330 | the digits of every 64-bit value denote it in bases 8, 10 and 16, and its lower 32 bits in base 2 |
| `PrintfFacts.DigitsAreNumeral` | smart_run/tests/lib/newlib_wrap/printf.c:318-326 | the digits backwards are a numeral: digits of the base in the case asked for, no leading zero, the value denoted |
| `PrintfFacts.NumeralUnique` | smart_run/tests/lib/newlib_wrap/printf.c:318-326 | value, base and case fix the numeral |
| `PrintfFacts.AtoiReadsBack` | smart_run/tests/lib/newlib_wrap/printf.c:217-224 | what %u prints is read back, modulo 2^32 |
| `PrintfFields.BodyFits` | smart_run/tests/lib/newlib_wrap/printf.c:256-306 | no combination of flags, precision and width overflows the digit buffer |
| `PrintfFields.FormattedIsLayout` | smart_run/tests/lib/newlib_wrap/printf.c:228-306 | without '#', every combination of flags, precision and width gives blanks, sign, zeros and numeral in reading order exactly if sign and zeros fit the digit buffer (or the missing sign is a blank among blanks) |
| `PrintfFields.FormattedWidth` | smart_run/tests/lib/newlib_wrap/printf.c:228-306 | the length is the larger of width and body exactly if they fit or blanks make up for them, in every base |
| `PrintfFields.FieldWidth` | smart_run/tests/lib/newlib_wrap/printf.c:228-306 | a decimal of at most 64 bits advances the count by the larger of width and body exactly under this condition, for every precision and width; the precision counts only if not left-aligned |
| `PrintfFields.IntegerDirective` | smart_run/tests/lib/newlib_wrap/printf.c:713-785 | every integer directive not under '#': argument cut to its length, digits that denote its magnitude (its lower 32 bits in base 2), and the text laid out in the field exactly if it fits |
| `PrintfFields.WideZeroPaddingFallsShort` | smart_run/tests/lib/newlib_wrap/printf.c:263-268 | zero padding beyond the buffer gives 32 columns, whatever was asked for |
| `PrintfFields.SignIsKept` | smart_run/tests/lib/newlib_wrap/printf.c:293-303 | a negative number keeps its sign exactly if it is left-aligned, or the precision is below 32 and no zero padding beyond 32 columns is asked for |
| `PrintfFields.SignIsLost` | smart_run/tests/lib/newlib_wrap/printf.c:293-303 | with a precision of 32 or more, not left-aligned and not zero-padded, a negative number prints like the positive one |
| `PrintfFields.LostSign` | smart_run/tests/lib/newlib_wrap/printf.c:293-303 | %.32d of -7 has no sign |
| `PrintfFields.HashKeepsDigits` | smart_run/tests/lib/newlib_wrap/printf.c:271-278 | '#' keeps all digits exactly if a precision was given, the padded length misses precision and width, or there was padding enough |
| `PrintfFields.HashLayout` | smart_run/tests/lib/newlib_wrap/printf.c:256-306 | with '#': sign, prefix of the base and the number kept, exactly if they fit the buffer |
| `PrintfFields.HashLosesDigits` | smart_run/tests/lib/newlib_wrap/printf.c:271-278 | %#2x of a number with two digits prints none |
| `Fifo.Outputs` | athanor_artifacts/ct_fifo/ct_fifo_gold.v:149-154 | full, empty and pop data are those of the queue held; the create pointer is one-hot |
| `Fifo.StepHolds` | athanor_artifacts/ct_fifo/ct_fifo_gold.v:79-147 | every legal clock edge is a step of the queue, also when an entry is taken and replaced in a full FIFO |
| `Fifo.RunHolds` | athanor_artifacts/ct_fifo/ct_fifo_gold.v:79-154 | and so is every legal run from any state that holds a queue |
| `Fifo.RefinesQueue` | athanor_artifacts/ct_fifo/ct_fifo_gold.v:68-154 | for every depth from 2 to 2^PTR_W, every legal run from reset refines the queue of that capacity |
| `Fifo.LegalIsExact` | athanor_artifacts/ct_fifo/ct_fifo_gold.v:79-147 | an edge is a queue step for all data exactly if create_en implies create_en_dp, pop_en implies not empty, and create_en_dp when full implies pop_en |
| `Fifo.FirstInFirstOut` | athanor_artifacts/ct_fifo/ct_fifo_gold.v:79-154 | over every legal run: contents before and data created are data popped and contents after, in order |
| `Fifo.GatingIsExact` | athanor_artifacts/ct_fifo/gated_clk_cell.v:37-47 | a real gate on ctrl_clk_en changes an edge exactly if it stops a clock that something needs |
| `Fifo.GatingInvisible` | athanor_artifacts/ct_fifo/ct_fifo_gold.v:68-77 | from any state, no run in which create_en implies create_en_dp and pop_en implies not empty notices real gates instead of the pass-through cell, overflowing runs included |
| `Fifo.CtFifo.constructor` | athanor_artifacts/ct_fifo/ct_fifo_gold.v:79-147 | the registers after reset |
| `Fifo.CtFifo.PosEdge` | athanor_artifacts/ct_fifo/ct_fifo_gold.v:79-147 | the always blocks of one rising edge, all reading the old registers |
| `FifoGate.SameRegistersStep` | athanor_artifacts/ct_fifo/ct_fifo_relation_miter.sv:71-82 | one edge keeps the relation of gold and gate, legal or not |
| `FifoGate.GoldEqualsGate` | athanor_artifacts/ct_fifo/ct_fifo_relation_miter.sv:71-82 | on every trace from reset the two agree on pointers, valid bits, storage and all outputs |
| `FifoGate.GateRefinesQueue` | athanor_artifacts/ct_fifo/ct_fifo_gate_candidate.v:48-119 | hence the gate is the queue of capacity two |
| `FifoGate.GatedGoldEqualsGate` | athanor_artifacts/ct_fifo/ct_fifo_gate_candidate.v:48-119 | with real clock gates in both, gold and gate agree on every trace |
| `FifoGate.GateGatingInvisible` | athanor_artifacts/ct_fifo/ct_fifo_gate_candidate.v:48-104 | under the two conditions the recoded FIFO does not notice real gates either |
| `FifoGate.CtFifoGate.constructor` | athanor_artifacts/ct_fifo/ct_fifo_gate_candidate.v:61-113 | the registers after reset |
| `FifoGate.CtFifoGate.PosEdge` | athanor_artifacts/ct_fifo/ct_fifo_gate_candidate.v:61-113 | the always blocks of one rising edge |
| `AreaSum.Composer.constructor` | athanor/full_top_ppa_harness.py:338-340 | an empty memo |
| `AreaSum.RankDecreases` | athanor/full_top_ppa_harness.py:353-354 | where no path from a module comes back, every submodule has shorter paths: the recursion terminates |
| `AreaSum.Composer.Sum` | athanor/full_top_ppa_harness.py:342-356 | if no cycle is reachable from the module it terminates, every memo entry stays the plain recursion's value, and the value returned is it |
| `AreaSum.WeightedSelf` | athanor/full_top_ppa_harness.py:342-356 | a listed module counts once for itself and then for its submodules |
| `AreaSum.TotalIsWeighted` | athanor/full_top_ppa_harness.py:342-356 | the plain recursion is the sum over all modules of instances along all paths, multiplicities multiplied, times local area; unlisted modules count 0 |
| `AreaSum.NestedArea` | athanor/full_top_ppa_harness.py:342-356 | top with n instances of a, each with k instances of b: top + n * (a + k * b), with escaped names |
| `AreaSum.KeyIs` | athanor/full_top_ppa_harness.py:343-343 | one leading backslash of a name is taken off, and nothing else |
| `AreaSum.ComposedArea` | athanor/full_top_ppa_harness.py:338-358 | the area returned is that sum |
| `JsonText.ObjectSpans` | athanor/check_scrub_hash_closure.py:207-234 | exactly the pairs of braces outside strings with balanced text between them |
| `JsonText.ObjectsNest` | athanor/check_scrub_hash_closure.py:207-234 | any two of these are nested or apart, and no brace is in two |
| `JsonText.KeyIsString` | athanor/check_scrub_hash_closure.py:237-243 | what the expression for a key finds is a whole string of the text, not a piece of one |
| `JsonText.StringIsKey` | athanor/check_scrub_hash_closure.py:237-243 | a string in front of a colon is what it finds |
| `JsonText.IsColonIs` | athanor/check_scrub_hash_closure.py:237-237 | a colon with nothing but white space around it |
| `JsonText.KeyNamesObject` | athanor/check_scrub_hash_closure.py:237-243 | an object has a key exactly if a string and a colon stand in front of it, and this string is the key |
| `ScrubClosure.ScanOccurs` | athanor/check_scrub_hash_closure.py:341-342 | every match of a literal is an occurrence |
| `ScrubClosure.ScanFindsAll` | athanor/check_scrub_hash_closure.py:341-342 | and every occurrence is a match, if the literal cannot overlap itself |
| `ScrubClosure.ScanIsLeftmost` | athanor/check_scrub_hash_closure.py:341-342 | for every literal: matches do not overlap, and every occurrence is one or begins inside one |
| `ScrubClosure.BaseBlobs` | athanor/check_scrub_hash_closure.py:103-142 | path to hash for every file of a tree |
| `ScrubClosure.SupersededContent` | athanor/check_scrub_hash_closure.py:171-173 | exactly the paths that do not have their base content any more, judged path by path |
| `ScrubClosure.SupersededMeans` | athanor/check_scrub_hash_closure.py:171-173 | in terms of the trees: no committed file has both the path and the content |
| `ScrubClosure.FirstPaths` | athanor/check_scrub_hash_closure.py:187-189 | for each hash the first path that holds it |
| `ScrubClosure.FirstWithIsFirst` | athanor/check_scrub_hash_closure.py:187-189 | no file in front of it has the hash |
| `ScrubClosure.MovedContent` | athanor/check_scrub_hash_closure.py:176-204 | exactly the vanished paths whose content lives on, each with the first path that holds it |
| `ScrubClosure.MovedMeans` | athanor/check_scrub_hash_closure.py:191-203 | no committed file has the path, and one has the content |
| `ScrubClosure.StandsInParent` | athanor/check_scrub_hash_closure.py:296-296 | the directory of a document is what stands in front of its last slash, none if it has no slash |
| `ScrubClosure.ResolveIsNamed` | athanor/check_scrub_hash_closure.py:296-301 | a key names the file next to its document if the document has a directory and that path is listed, otherwise the path at the root if that is listed |
| `ScrubClosure.NearFileFirst` | athanor/check_scrub_hash_closure.py:296-301 | the same by cases for a document in a directory: next to it, else at the root, else none |
| `ScrubClosure.RootFileOnly` | athanor/check_scrub_hash_closure.py:296-301 | and for a document without one: at the root or none |
| `ScrubClosure.StringValuesAreHeld` | athanor/check_scrub_hash_closure.py:246-257 | the values collected are the strings anywhere down in the document |
| `ScrubClosure.Subject` | athanor/check_scrub_hash_closure.py:287-303 | the file that an object is about is the one named by its decoded key, if there is one |
| `ScrubClosure.ExcusedBy` | athanor/check_scrub_hash_closure.py:286-317 | what one object excuses: its key names a file by the rule of ResolveIsNamed, that file had an old hash, the object parses, some string in it is the current hash but for case, and the old hash matches there |
| `ScrubClosure.ExcusedSpans` | athanor/check_scrub_hash_closure.py:260-318 | exactly the offsets that some object with matching braces excuses, and none if the document does not parse |
| `ScrubClosure.ExcusedIsOldHash` | athanor/check_scrub_hash_closure.py:260-318 | at an excused offset stands the old hash of the file the record is about, inside the record |
| `ScrubClosure.EveryOccurrenceIsJudged` | athanor/check_scrub_hash_closure.py:336-344 | what survives is exactly an occurrence that is not excused |
| `ScrubClosure.JsonNameIs` | athanor/check_scrub_hash_closure.py:338-338 | which documents may hold records: the name ends in .json in whatever case |
| `ScrubClosure.Wanted` | athanor/check_scrub_hash_closure.py:323 | the distinct old hashes, each with its last owner |
| `ScrubClosure.LastOwnerIsLast` | athanor/check_scrub_hash_closure.py:323-323 | no later entry has the hash |
| `ScrubClosure.FindingsIn` | athanor/check_scrub_hash_closure.py:331-353 | the findings of one file |
| `ScrubClosure.SurvivingOccurrences` | athanor/check_scrub_hash_closure.py:321-354 | exactly the occurrences of old hashes in committed files that no record excuses |
| `ScrubClosure.CleanIsEveryOccurrence` | athanor/check_scrub_hash_closure.py:357-380 | for hashes that cannot overlap themselves, judging the matches is judging every occurrence |
| `ScrubClosure.Check` | athanor/check_scrub_hash_closure.py:357-380 | both lists exactly; nothing is reported if and only if no content moved under a vanished name and every match, scanning from the left, of every changed path's old hash in every file is excused; for hashes that cannot overlap themselves, every occurrence |
| `HopChain.CommitProblems` | athanor/verify_public_receipts.py:1013-1042 | no problem exactly for an immutable commit id with a true subject, if one is given |
| `HopChain.ImmutableIs` | athanor/verify_public_receipts.py:952-952 | an immutable commit id has 7 to 40 hexadecimal digits of either case |
| `HopChain.HashIs` | athanor/verify_public_receipts.py:588-588 | a hash has 64 |
| `Ascii.StripIs` | athanor/verify_public_receipts.py:1017-1017 | a text without the white space around it, and nothing else |
| `Ascii.ContainsIs` | athanor/verify_public_receipts.py:1088-1088 | a text contains another that stands between two others |
| `Ascii.LowerIs` | athanor/check_scrub_hash_closure.py:323-333 | letters A to Z move by 32, every other character stays |
| `HopChain.BlobProblems` | athanor/verify_public_receipts.py:1050-1082 | no problem exactly if the commit produced the hash claimed from the one before |
| `HopChain.HopProblems` | athanor/verify_public_receipts.py:1009-1082 | no problem exactly if history confirms the hop |
| `HopChain.VerifyHops` | athanor/verify_public_receipts.py:983-1092 | no problem exactly if git is available and the hops are a non-empty chain of confirmed hops from the cited hash to the current one, the first of them named in superseded_by if that is a text |
| `HopChain.CompressionIsSeen` | athanor/verify_public_receipts.py:1059-1091 | a stretch of hops can be dropped from a proved record exactly if it ends at the hash it began with and, at the front, superseded_by names the next commit |
| `HopChain.UnnoticedCompression` | athanor/verify_public_receipts.py:1059-1091 | a proved record of three hops that stays proved without the last two |

## Left out

- core_matrix.c and the nested calls of the benchmarks inside `calc_func`: their results are an arbitrary function of all calls so far.
- Vsnprintf: the text of the floating-point directives is a parameter, `_ftoa` and `_etoa` are not part of this model; indices are unbounded where the program's are 64 bits wide.
- Vsnprintf: the character sinks of `printf` and `fctprintf` are not part of this model.
- IntegerFormat: the other combinations of flags, precision and length are those of `IntegerDirective`, `IntegerFlagsAre` and `IntegerValueIs`.
- PutInteger: negating the least value of a type is exact here and undefined in C; the same holds for a width of INT_MIN.
- Ntoa: stands for `_ntoa_long` and `_ntoa_long_long`, whose types have the same width on this target.
- BenchList: after the value sort, which a positive index asks for, the order depends on the nested benchmarks; the exact condition for such a call is stated on the order they leave.
- ListHeap: data and position of an item are one value that is replaced as a whole; a position is unbounded, its 16 bits matter only to the incremented search index, whose wrap-around is modelled.
- Init: the block is given as the headers and items that its size has room for; `RegionsDisjoint` says that their addresses do not collide.
- Sort: comparators are the two of the file and any that rank an item by itself; one that is inconsistent with itself is not covered.
- Iterate: times and the CRC of the whole run are left out; the bits that `info` holds uninitialised when no find is made are a parameter.
- The clock cell's scan input and the reset during a run of the FIFO.
- CtFifo: data of any type instead of WIDTH bits; two-valued logic.
- Sum: areas are real numbers, so rounding and the order of additions are not modelled.
- Sum: `parse_yosys_stat_modules`, which reads the table from the report; the table itself is the argument.
- ComposedArea: hierarchies with a cycle reachable from the top, on which the program does not terminate.
- Check: SHA-256, git and the JSON parser are functions; texts are ASCII, so that lower case keeps lengths; line numbers, context and the order of messages are left out, as is the error that a tree cannot be read.
- KeyNamesObject: asks for backslashes only inside strings and none in front of a line feed, which every parsable document meets.
- VerifyHops: white space and digits are those of ASCII; messages are kinds of problems with their hop number.
- The other checks of the receipt verifier and the other tools of that directory, which are filters of fields and paths without an invariant.
- CPU sources, netlists, timers, UART and the build files.
