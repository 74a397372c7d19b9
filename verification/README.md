# A verified model of the ARM code generator's local code

Norcroft's ARM back end turns one abstract operation into a short run of ARM instructions. This project
models the parts of it that are about local code, runs the code they produce on a small ARM interpreter,
and proves that the code means what the operation asked for. Two table encoders and the 64-bit run-time
support are included as well.

* **The machine.** `Words` (32-bit words, shifts, rotations, bitwise operations), `Arm` (sixteen registers,
  NZCV flags, word-addressed memory; data processing with immediate and shifted operands, the condition
  field, LDR/STR with pre- and post-indexing, LDM/STM in the four modes with and without writeback), after
  sections A3.2, A5.1, A5.2 and A5.4 of the ARM Architecture Reference Manual (ARM DDI 0100); `Shifts` says
  what its shifts, fields and logical operations are by arithmetic and by bits.
* **Constants.** `Immediates`, `KnownValues` (the cache of known register values), `Lookup` (what its search
  finds, and that it finds it whenever there is something), `Buffers` (the output buffer), `AddConstant`,
  `LogicConstant`, `LoadConstant`, `FirstChunk` (what the first instruction of a split load leaves),
  `LoadBound` (how long a load can become), `CompareConstant`, `Multiply`, `Forms` (when one instruction is
  enough).
* **The load/store combiner.** Word loads and stores are held back, constant changes of their base register
  are deferred, and the queue is later emitted as LDM/STM/LDR/STR in another order; the cache of known
  register values goes with it. `Transfers` is the algebra of doing part of a queue early; `Combiner`
  generates one run and a list of runs and says which of them can be encoded; `CombinerPlan` divides a queue
  into runs; `Traces` follows where the transfers really go when the base moves unrecorded or an addition
  misses, and `Places` says when misplaced stores are harmless; `Flush` is one flush; `FlushExact` says
  exactly when a flush is right and can be encoded, and why it may not be, and `Reach` that a narrow queue is
  enough; `RunForms` says which form a run is given; `Combining` feeds the queue and proves whole runs;
  `Settling` says what an event settles and what it leaves held back; `BaseLoads` decides loads of the base;
  `CombinerFaults` and `ReadBackRun` show programs that go wrong; `CombinerStates` is the class with the
  file-level variables, its methods proved against those functions.
* **Frames and blocks.** `PushPop`, `Frames` (entry, exit, argument addresses), `FrameStates` (the class),
  `BlockMove` (MOVC, CLRC and PUSHC), `BlockLength` (how many instructions they take).
* **Arithmetic and tables.** `Int64` (64-bit arithmetic from 32-bit halves), `FpMap` (the map from code
  addresses to frame-pointer offsets), `Coff` (numbering and writing the COFF symbol table).
* **`Counterexamples`** has a concrete input for each condition of the exact theorems that is not already
  shown in `CombinerFaults`, `ReadBackRun`, `FpMap` or `Coff`.

Where the source works step by step there is a method or class with the source's loops and assignments,
proved equal to a specification function; what the source promises is proved about that function.

## What the proofs found

The code is modelled as it is. In these places it does less than its comments or its purpose say, and the
exact condition is proved:

| where | what happens | theorem | concrete input |
|---|---|---|---|
| `ldmstm_generate`, `ldm_type` (ncc/arm/gen.c:538-582) | a run with start < adjust <= end < -4 moves the base by an ADD that is not recorded, so later offsets and the final base are wrong | `FlushExact.FlushExactIff`, `FlushExact.FlushStraddlesIff` | `CombinerFaults.StraddlingRun` |
| `ldmstm_generate` (ncc/arm/gen.c:613) | the base is moved with the help of the cache while its own old value is still recorded: MOV r0, #0x0ffff000; STR r1, [r0, #-4092]; STR r2, [r0, #-4088] becomes ADD r0, r0, #0xf0000004; ADD r0, r0, r0; STM, which writes at 0xffffe008 | `FlushExact.FlushExactIff`, `Transfers.SlipIff` | `ReadBackRun.BaseReadBack` |
| `ldmstm_generate` (ncc/arm/gen.c:588, 613) | the address of a run of loads is made in the last register loaded, whose record is kept until after the load: MOV r2, #0x0ffff000; LDR r1, [r0, #-4092]; LDR r2, [r0, #-4088] becomes ADD r2, r0, #0xf0000004; ADD r2, r2, r2; LDM, which loads from twice r0 - 0x0ffffffc | `FlushExact.FlushExactIff`, `FlushExact.FlushStraddlesIff` | `ReadBackRun.LastReadBack` |
| `ldm_outinstr` (ncc/arm/gen.c:881-887) | a load of the base that is refused twice is dropped | `BaseLoads.BaseLoadIff` | `CombinerFaults.LosingRun` |
| `ldm_addregoff` (ncc/arm/gen.c:835-853) | a store that is discarded leaves its register marked dead; stored again, alive, the register is freed by the flush and may be taken for an address | `Combining.MarksIff` | `CombinerFaults.StaleRun` |
| `ldmstm_generate` (ncc/arm/gen.c:662-666) | an offset of more than 12 bits is OR-ed into the instruction word | `Flush.FlushEncodableIff`, `FlushExact.FlushExactIff` | `CombinerFaults.FarRun` |
| `arm_add_integer` (ncc/armthumb/arminst.c:94-117) | after r1 holds a partial sum the cache may still offer r1 | `AddConstant.AddCorrectIff` | `Counterexamples.ReadBackGoesWrong` |
| `compare_integer_i` (ncc/arm/gen.c:3930-3941) | with an unsigned condition and n >= 2^31 the LS guard also lets r == m through | `CompareConstant.CompareIff` | `Counterexamples.HigherTakenForLower` |
| `compare_integer_i` (ncc/arm/gen.c:3913-3942) | after the work register holds a partial difference the cache may still offer it, by a value recorded earlier | `CompareConstant.CompareIff` | `Counterexamples.EveryValueEqual` |
| `eightbit_floor` (ncc/arm/gen.c:3863-3881) | the comment asks for the closest value of its form; a value whose field wraps round can be closer | `CompareConstant.FloorExactIff` | `Counterexamples.CloserField` |
| `movc_preserving_r1r2` (ncc/arm/mcdep.c:822-833) | it looks neither at `ldm_regs_max` nor at post-indexing, so it can say yes for a copy that takes two transfers and moves the register | `BlockMove.PreservingIff`, `BlockMove.SourceAfter` | `Counterexamples.DestinationMoves`, `Counterexamples.DestinationMovesPost` |
| block moves (ncc/arm/gen.c:2536, 2610, 2670) | the counter of the loop may be a spare register added after the usage of the operation was computed; it is recorded with the number of rounds, ends as 0, and is not forgotten | `BlockMove.BlockCacheIff` | `Counterexamples.CounterStale` |
| block moves (ncc/arm/gen.c:2542-2546, 2576-2583) | the pool of literals is kept in reach for 7 instructions (6 and one for each data register of a clear), but a move of more than three times as many words as there are work registers is a line of more: the test for four times, meant for clears, lets it through; so is one with a small `ldm_regs_max` | `BlockLength.ReservedIff` | `Counterexamples.EightInstructions` |
| `_ll_sshift_r` (ncc-support/int64-runtime.c:189-191) | the low half of a negative number is shifted without its sign for 32 < sh < 64 | `Int64.SShiftRIff` | `Counterexamples.MinusOneShifted` |
| `_ll_udiv`, `_ll_sdiv` (ncc-support/int64-runtime.c:259, 296-299) | division by zero gives 2^32 - 1 (or 1), where the comments say all ones (or -1) | `Int64.UDiv`, `Int64.SDiv` | stated by their contracts |
| `obj_notefpdesc` (ncc/armthumb/asd.c:1672-1706) | when the last change starts a fragment of its own, the rest of the procedure has no fragment | `FpMap.CoverageIff` | `Counterexamples.LastChangeLost` |
| `obj_notefpdesc` (ncc/armthumb/asd.c:1684-1689) | a change of nothing at no distance is written as the escape | `FpMap.ItemsIff` | `FpMap.UntoldMisread` (every list that starts so) |
| `WriteEntries` (ncc/arm/coff.c:1553, 1575) | the end index of a tag is taken from the next list item, which another pass may number | `Coff.TagReference` | `Coff.TagReferenceAstray` |

## Model

| member | source | states |
|---|---|---|
| Immediates.EightBitsExact | ncc/armthumb/arminst.c:23-33 | The packed field denotes n under the hardware's rotation, is found whenever any rotation of any byte denotes n, and has the smallest rotation. |
| Immediates.FindEightBits | ncc/armthumb/arminst.c:23-33 | The in-place rotating search returns that field, or None exactly when there is none. |
| KnownValues.LookupSound | ncc/arm/gen.c:168-286 | Every answer is one of the forms asked for, reads only registers whose value is recorded, and evaluates to n on the machine; with Shifts.ShiftIs, by arithmetic. |
| Shifts.ShiftIs | ncc/arm/gen.c:168-187 | As operand of an instruction or candidate of the search, LSL multiplies by a power of two modulo 2^32, LSR divides and rounds down, ASR divides the signed value and rounds down, and ROR moves the remainder of that division to the top. |
| Shifts.ImmIs | ncc/armthumb/arminst.c:23-33 | The value of a packed field is its byte rotated right by twice its rotation: quotient by a power of two, with the remainder moved to the top. |
| Shifts.BitsOf | ncc/arm/gen.c:209-223 | AND, OR, EOR and BIC of two values have in each place what the operation makes of the bits there. |
| Lookup.FindShiftFirst | ncc/arm/gen.c:169-186 | For each kind, a count from 1 to 31 that turns the recorded value into n is found whenever there is one, and it is the smallest. |
| Lookup.BuildableFirst | ncc/arm/gen.c:169-188 | A shift is found if and only if some shift tried gives n; it is the first in the order unshifted, ASR, LSR, LSL, ROR. |
| Lookup.AddedFirst | ncc/arm/gen.c:244-258 | A constant to add or subtract is found if and only if some field other than 0 makes up the difference; addition is preferred. |
| Lookup.FindPairFirst | ncc/arm/gen.c:259-281 | A second register is found if and only if some recorded one and one of the seven operations make n with some shift of the first; it comes with the first such shift. |
| Lookup.LookupFirst | ncc/arm/gen.c:225-286 | The search answers if and only if some recorded register offers n in a form asked for, and then with the lowest such register, the first form it offers and the first shift of that form. |
| KnownValues.RegisterValues.Kill | ncc/arm/gen.c:154-156 | Forgets one register and no other; whatever is then put into that register, a table in step with the registers stays in step. |
| KnownValues.RegisterValues.Set | ncc/arm/gen.c:158-163 | Records n for one register and leaves the rest; a table in step stays in step when n is put into that register, and with no other value. |
| AddConstant.SplitProgress | ncc/armthumb/arminst.c:40-70 | Each chunk, including one whose window wraps round the word, fits an immediate field and leaves a rest with at least four more trailing zero pairs; it is no larger than what is to be added, and for SP it is taken in the direction of n. Otherwise it is subtracted if and only if the next pair is 11, and a next pair of 11 or 00 is then cleared as well. |
| AddConstant.SplitWhere | ncc/armthumb/arminst.c:40-70 | Just which byte is taken: the one at the lowest pair that is not 00, or, if that reaches into the top byte of the word, the one slid down over the pairs of it that repeat what is above, so that pairs from the top are taken along. |
| AddConstant.FindSplit | ncc/armthumb/arminst.c:40-70 | The mask-and-tail loop picks that chunk. |
| AddConstant.AddCodeShape | ncc/armthumb/arminst.c:72-119 | At most four instructions; all but the last are unconditional immediate ADD or SUB into r1 that set no flags. |
| AddConstant.AddCorrect | ncc/armthumb/arminst.c:72-119 | If the cache is in step with the registers and does not offer r1 back, r1 ends as r2 + n modulo 2^32 and nothing else changes; with scc Z and N describe the sum. |
| AddConstant.AddCorrectIff | ncc/armthumb/arminst.c:94-117 | The sum is right in every state that matches the cache if and only if no later lookup is answered with r1; when the cache fixes the value of r2, also if the partial sum offered back happens to contribute the amount still to be added. |
| AddConstant.AddRightAt | ncc/armthumb/arminst.c:94-117 | In each single state that matches the cache: the sum is right if and only if r1 is not offered back, or its partial sum there contributes exactly what is still to be added. |
| AddConstant.AddedVaries | ncc/armthumb/arminst.c:94-117 | If r1 is read back, two starts give different amounts added: no one amount is added from every start. |
| AddConstant.StackMonotone | ncc/armthumb/arminst.c:54-70 | With SP as destination, unless it is read back, every instruction moves SP towards n and never past it: all partial positions lie between 0 and n in order. |
| AddConstant.ArmAddInteger | ncc/armthumb/arminst.c:72-119 | Writes exactly the specified sequence at the end of the buffer and nothing beyond. |
| Forms.AddInOne | ncc/armthumb/arminst.c:72-119 | One instruction or none if and only if n or -n is a rotated byte or a recorded register, shifted, is n or -n; none if and only if nothing is to be done. |
| Counterexamples.ReadBackGoesWrong | ncc/armthumb/arminst.c:94-117 | r1 known to hold 0x10100, r0 = 0xffffff01, n = 0x101ff: the code leaves 0 where the sum is 0x10100. |
| LogicConstant.AndCorrect | ncc/arm/gen.c:3730-3785 | For every constant and every cache in step with the registers, r1 ends as r2 & n through the immediate, BIC, cached, double-shift and window forms; only r1 changes, and with s Z and N describe the result. |
| LogicConstant.OrCorrect | ncc/arm/gen.c:3787-3829 | The same for r2 with n OR-ed or exclusive-OR-ed in. |
| LogicConstant.AndCodeLength | ncc/arm/gen.c:3730-3785 | The recursion ends within four instructions, fewer the more trailing ones n has. |
| LogicConstant.OrCodeLength | ncc/arm/gen.c:3787-3829 | The recursion ends within four instructions, fewer the more trailing zeros n has. |
| LogicConstant.FindChunk | ncc/arm/gen.c:3780-3784 | The sliding mask finds the byte at the lowest pair that is not 00. |
| LogicConstant.AndInteger | ncc/arm/gen.c:3730-3785 | Emits exactly the specified sequence. |
| LogicConstant.OrInteger | ncc/arm/gen.c:3787-3829 | Emits exactly the specified sequence. |
| Forms.AndInOne | ncc/arm/gen.c:3730-3785 | The same with n or its complement. |
| Forms.AndInTwo | ncc/arm/gen.c:3754-3772 | A constant that keeps all bits below some place, or all from it on, takes at most two. |
| Forms.OrInOne | ncc/arm/gen.c:3787-3829 | The same with n alone. |
| LoadConstant.ScanSound | ncc/arm/gen.c:3571-3609 | At every step of the scan: the two recorded strings are whole runs of 00 or 11 pairs of n, going round at bit 31, that do not continue past their end, and every run that has ended is accounted for in one of them or held back for the string it joins at bit 31. |
| LoadConstant.LongestStrings | ncc/arm/gen.c:3566-3609 | After the scan no run of n, going round or not, is longer than the first recorded string, and every run longer than the second lies in the first: they are the two longest. |
| LoadConstant.LaterKept | ncc/arm/gen.c:3596-3603 | Of equally long strings the later is kept as the first: a run that reaches bit 31 is of the kind of the first string, or shorter than it. |
| LoadConstant.FirstEncodable | ncc/arm/gen.c:3610-3656 | In every branch the first chunk fits an immediate field, also where it is incremented by one. |
| LoadConstant.FirstAddsUp | ncc/arm/gen.c:3610-3656 | What MOV or MVN of the chunk gives, plus the remainder, is n modulo 2^32. |
| FirstChunk.FirstChoice | ncc/arm/gen.c:3610-3656 | Which byte the first instruction takes, for the two longest strings, and pair by pair what it leaves: of n, of its complement, or of n and one more, just the byte above a string is cleared; MVN is used if and only if the longest string is of more than eight 1s and the next of 1s too, or the longest starts at bit 0. |
| LoadConstant.SymmetryAdds | ncc/arm/gen.c:3529-3543 | When half of n is a rotation of the other half, the half plus its rotation is n, and the half is smaller, so the recursion ends. |
| LoadConstant.LoadCorrect | ncc/arm/gen.c:3529-3668 | For every n and every cache in step with the registers, r ends as n through every branch and nothing else changes; with scc the flags give the sign of n and whether it is zero, unless r is recorded as holding n, when there is no code at all. |
| LoadConstant.LoadKeepsCache | ncc/arm/gen.c:3708-3709 | Recording r = n afterwards leaves the cache in step with the registers. |
| LoadConstant.ScanPairs | ncc/arm/gen.c:3571-3609 | The loop over the pairs computes the scan. |
| LoadConstant.PickFirst | ncc/arm/gen.c:3610-3656 | The branches compute the chosen chunk and remainder. |
| LoadConstant.LoadIntegerI | ncc/arm/gen.c:3545-3668 | Emits exactly the specified sequence; of the cache at most r is forgotten. |
| Forms.LoadInOne | ncc/arm/gen.c:3545-3570 | Whenever n or its complement is a rotated byte, or a recorded register offers n in one of the forms for loads, one instruction loads it; none only if r holds it already. |
| Forms.SymmetricIff | ncc/arm/gen.c:3529-3543 | The symmetric form is found if and only if one of the masks, in one of its places, cuts out a part of n that is a rotation of the rest. |
| LoadBound.HalfOneMore | ncc/arm/gen.c:3529-3656 | For every n, mask and position: of a half that is not zero, the rest after the first chunk, or its negative, fits an immediate field. |
| LoadBound.HalfLength | ncc/arm/gen.c:3529-3543 | Such a half loads in at most two instructions, whatever the cache. |
| LoadBound.LoadLength | ncc/arm/gen.c:3545-3668 | At most five instructions for every constant, cache and form, the symmetric one included. |
| LoadBound.LoadInteger | ncc/arm/gen.c:3689-3710 | The sequence fits the array of five, and afterwards the table records r = n. |
| CompareConstant.CmpMeaning | ncc/arm/gen.c:3902-3946 | The flags of a comparison say equal, unsigned at least and signed less exactly when those hold. |
| CompareConstant.AgreeHolds | ncc/arm/gen.c:3926-3938 | Agreement of two flag settings for a kind of test is agreement on each condition of that kind. |
| CompareConstant.FloorEncodable | ncc/arm/gen.c:3863-3881 | From 256 up it is not 0, fits an immediate field, and falls short of n by less than the place of the low pair of its byte. |
| CompareConstant.FloorClosest | ncc/arm/gen.c:3863-3881 | Of the values whose field does not wrap round, none lies between the approximation and n. |
| CompareConstant.FloorExactIff | ncc/arm/gen.c:3863-3881 | From 256 up the approximation is the closest value from below that fits a field at all, wrapped ones included, if and only if it is n itself or its low 26 bits are not all clear. |
| Counterexamples.CloserField | ncc/arm/gen.c:3863-3881 | Wrapped fields are not considered: 0x4000003f is closer to 0x40000041 than the approximation. |
| CompareConstant.FindFloor | ncc/arm/gen.c:3869-3881 | The sliding masks compute the approximation. |
| CompareConstant.CompareCorrect | ncc/arm/gen.c:3902-3946 | After the chain of conditional subtracts and the final CMP or CMN, provided the cache does not offer the work register back, the equality and signed conditions hold exactly when they hold for r against n, and the unsigned ones when n < 2^31 or one instruction is enough; only the work register and the flags change. |
| CompareConstant.CompareIff | ncc/arm/gen.c:3902-3956 | For every constant, cache and kind of test: the conditions of the test are answered rightly in every state that matches the cache if and only if the work register is not offered back and, for unsigned order, n < 2^31 or one instruction is enough; when the cache holds the value v of r, if and only if v is none of the values an unsigned comparison loses or, where the work register is offered back, v settles the comparison before or what is left of v compares with the register offered as v does with n. |
| CompareConstant.SettledEarly | ncc/arm/gen.c:3926-3945 | A comparison that a conditional instruction settles before the last one is settled rightly, whatever the cache would have offered. |
| CompareConstant.AnswerableIff | ncc/arm/gen.c:3902-3956 | The flags left by the chain agree for all values of r if and only if the work register is not offered back and, for unsigned order, n < 2^31 or one instruction is enough. |
| CompareConstant.CompareLength | ncc/arm/gen.c:3902-3956 | At most four instructions, so the five-word buffer never overflows. |
| CompareConstant.CompareIntegerI | ncc/arm/gen.c:3902-3946 | Emits exactly the specified chain. |
| Forms.CompareInOne | ncc/arm/gen.c:3902-3956 | Exactly one instruction if and only if n or -n is a rotated byte or a recorded register, shifted, is n or -n; whatever is to be tested. |
| Counterexamples.HigherTakenForLower | ncc/arm/gen.c:3930-3942 | r0 = 0xffff0000 against 0xfffefe01: LS holds although r0 is higher. |
| Counterexamples.EveryValueEqual | ncc/arm/gen.c:3913-3942 | With 0x101 recorded for the work register, comparing r0 with 0x10101 finds every value equal. |
| Multiply.Multiply1Exec | ncc/arm/gen.c:4010-4021 | Each one-instruction form gives r2 * n modulo 2^32 in r1 and nothing else. |
| Multiply.OneIff | ncc/arm/gen.c:4010-4021 | One instruction is found if and only if, modulo 2^32, n is a power of two, or n - 1, 1 - n or n + 1 is. |
| Multiply.NextK | ncc/arm/gen.c:4101-4104 | Rounding k to the nearest multiple of four times its lowest bit raises that bit by at least two places. |
| Multiply.NextRound | ncc/arm/gen.c:4087-4105 | Hence the loop over k ends. |
| Multiply.TryFactor | ncc/arm/gen.c:4036-4045 | A factor is accepted if and only if it divides n and leaves a one-instruction form; then two instructions that multiply by n are appended, otherwise the description is left as it was. |
| Multiply.Multiply2 | ncc/arm/gen.c:4023-4064 | Yes if and only if one of the two factors does it or, with a work register, n is a power of two plus or minus the lowest bit of its neighbour, plus or minus 1; then exactly two instructions that multiply by n were appended, otherwise nothing changed. The work register is taken only if neither factor does it. |
| Multiply.SumsFound | ncc/arm/gen.c:4047-4062 | Every 2^a + 2^b + 1, 2^a + 2^b - 1, 2^a - 2^b + 1 and 2^a - 2^b - 1 with 2 <= b < a, modulo 2^32, takes two instructions with a work register. |
| Multiply.ProductsFound | ncc/arm/gen.c:4025-4031 | Every product of two factors 2^p + 1 or 2^p - 1 takes at most two instructions, without a work register unless the exponents are the same: one factor is next to the lowest bit of the neighbour of n. |
| Multiply.TimesFactor | ncc/arm/gen.c:4072-4081 | Yes if and only if the factor 2^p - 1 or 2^p + 1 divides n and leaves a two-instruction form; three instructions, on the same terms. |
| Multiply.AddOrReverse | ncc/arm/gen.c:4047-4062 | Yes if and only if the neighbour of n is its lowest bit more or less than a power of two: 2^a plus or minus 2^b plus or minus 1 through the work register, on the same terms. |
| Multiply.SumForms | ncc/arm/gen.c:4082-4106 | Yes if and only if one of the powers of two that rounding n goes through leaves a two-instruction form when it is taken from n or added to it; on the same terms. |
| Multiply.Multiply3 | ncc/arm/gen.c:4066-4108 | Yes if and only if one of the factors or, with a work register, one of the sums does it; then exactly three instructions, on the same terms. |
| Multiply.FindFactor | ncc/arm/gen.c:4134-4142 | The factor found divides n and is a one-instruction form; none is found only if none from 2^16 + 1 down to 3 divides n. |
| Multiply.MultiplyEven | ncc/arm/gen.c:4120-4124 | A power of two times an odd number: correct, and the recursion shrinks n. |
| Multiply.MultiplyNear | ncc/arm/gen.c:4149-4162 | One more or less than a power of two times an odd number: correct with r1 equal to r2 or not. |
| Multiply.MultiplyI | ncc/arm/gen.c:4110-4163 | For every n of 32 bits the appended code leaves r2 * n modulo 2^32 in r1, changes only r1, the work register and (with scc) the flags, is no longer than a bound fixed by the size of n, and has exactly the length that the forms found for n, its factors and its neighbours give. |
| Multiply.MultiplyInteger | ncc/arm/gen.c:4165-4213 | From an empty description never more than 24 of the 32 slots are used, for r1 == r2 and r1 != r2, and exactly as many as the length of n says. |
| Transfers.StoreKeepsView | ncc/arm/gen.c:673-793 | Doing some queued stores early and moving the base on the way leaves unchanged what the machine and the rest of the queue stand for. |
| Transfers.LoadKeepsView | ncc/arm/gen.c:673-793 | The same for loads, with the base loaded only when nothing else is left. |
| Transfers.StoreBlock | ncc/arm/gen.c:549-625 | One STM in any of the four modes stores exactly a run of consecutive queued stores and moves the base by the block's size only with writeback. |
| Transfers.LoadBlock | ncc/arm/gen.c:549-625 | One LDM in any of the four modes does exactly a run of consecutive queued loads, also when the base is among them. |
| Transfers.MoveByAdds | ncc/arm/gen.c:3408-3418 | In every state, whatever the registers hold, the code for a base move adds the amount asked for and what the cache's answers, read from the registers as they are, make it miss by; nothing else changes. |
| Transfers.SlipIff | ncc/armthumb/arminst.c:94-117 | With the cache in step it does not miss if and only if the destination is not offered back, or its partial sum contributes just what is still to be added. |
| Combiner.GenerateDone | ncc/arm/gen.c:549-671 | In every state the code of one run does exactly the run's transfers, all displaced by what its addition misses by, through the base, a claimed temporary, the last register loaded or singly; the base moves by what is recorded, the drift and, if it was added to, the miss; and every instruction can be encoded if and only if no single transfer of the run is more than 12 bits from where the base then is. |
| Combiner.DriftIff | ncc/arm/gen.c:570-582 | The unrecorded movement is nonzero exactly when the run straddles the adjustment, and is then the end of the run. |
| RunForms.ShapeIff | ncc/arm/gen.c:562-582 | A run of two words or more is done from the base as it stands if and only if one of the four modes reaches it, and the base is moved for it if and only if none does and it is to go over the whole run anyway; either way the mode then reaches it, and a base that is moved goes past the run, or onto its last word if that is all of the adjustment. |
| RunForms.ElsewhereReaches | ncc/arm/gen.c:599-612 | The place for another base reaches the run, and one instruction puts the base there whenever some mode has such a place. |
| RunForms.SingleMoves | ncc/arm/gen.c:632-670 | One register takes one instruction, without an index if the base stays; the base goes to its word if that is on the way, and from its own word on to the next run or all the way, where twelve bits allow. |
| RunForms.ShapedMoves | ncc/arm/gen.c:538-582 | A run in one of the four modes takes the base to its far end, with writeback, if and only if that is on the way of the adjustment; otherwise no movement is recorded. |
| RunForms.StackStays | ncc/arm/gen.c:583-598 | For a run off the way of the adjustment neither SP nor a global register variable is moved to store: the lowest spare register is taken, or the words go singly; another base is moved, and loads take the last register loaded. |
| RunForms.DeadBaseStays | ncc/arm/gen.c:768-769 | The last run does not move a base that dies, unless stores have to be placed. |
| RunForms.RunLength | ncc/arm/gen.c:549-671 | A run takes no more instructions than registers if its base move takes at most one, and never more than three beyond that. |
| Traces.RunsStore | ncc/arm/gen.c:766-778 | A list of runs of stores, straddling or missing as it may: every register is stored where its error in the trace puts it, the base ends astray by what the trace says, the counters are conserved for a live base, nothing else is written, and the cache stays in step but for the base. |
| Traces.RunsLoad | ncc/arm/gen.c:766-778 | The same for loads: every register receives the word its error leads to, with the base loaded last if it is loaded; registers still recorded while their loads are held back are no exception. |
| Traces.TraceAny | ncc/arm/gen.c:766-778 | With a base that is not recorded, where it began matters only to registers whose addresses are read back. |
| Traces.ReadBackMisses | ncc/arm/gen.c:588-613 | And each of those misses its place from some start, whatever else is astray. |
| Places.ServedStored | ncc/arm/gen.c:673-793 | Misplaced stores leave just the memory intended if every place is reached by its own register or one recorded with the same value (which register that is, is then one-to-one). |
| Places.DesertedCell | ncc/arm/gen.c:673-793 | Otherwise the place that is left out does not get its word, in any state in which only registers surely alike hold it. |
| Combiner.GenerateAllEncodable | ncc/arm/gen.c:632-670 | Straddling or not, all instructions of a list of runs can be encoded if and only if no single transfer that stays one overreaches 12 bits. |
| Combiner.TotalDriftIff | ncc/arm/gen.c:766-778 | Drift is never upwards, so it cannot cancel: the total is negative exactly when some run straddles. |
| CombinerPlan.BuildTakes | ncc/arm/gen.c:722-741 | A run holds its seed, is consecutive in registers and offsets, takes its registers out of the queue, and never exceeds the LDM limit. |
| CombinerPlan.BuildGreedy | ncc/arm/gen.c:722-741 | Just which registers join: going down from the seed and then up, each one whose offset continues the run, until those looked at, taken or not, reach the limit; the last register is the highest. |
| CombinerPlan.Position | ncc/arm/gen.c:742-760 | A run is placed inside the part of the list it may use. |
| CombinerPlan.PlanOfOk | ncc/arm/gen.c:720-761 | The runs cover at least the selected registers (unselected neighbours may be taken along), each register once, and with the rest make up the queue; they keep the limit, and the run that loads the base is last. |
| CombinerPlan.PlanOrdered | ncc/arm/gen.c:748-757 | The runs ascend by offset if the base is to move up and descend if it is to move down, so that no transfer is left on the wrong side of a stack pointer that has moved; only a run that loads the base is last whatever its place. |
| RunForms.PretendedIff | ncc/arm/gen.c:698-716 | A writeback is pretended for a dead base if and only if no queued offset has the other sign than that of the queued register before it, and it is the offset of the last register. |
| RunForms.StartIff | ncc/arm/gen.c:694-717 | It is pretended only where no adjustment is pending, the base is dead and not to be loaded, and variables need not be kept for a debugger; otherwise the flush starts with the adjustment there is. |
| RunForms.RunsAskedFor | ncc/arm/gen.c:694-722 | Without an adjustment, given or pretended, every run made has one of the registers asked for; with one, everything is done. |
| Flush.FlushStores | ncc/arm/gen.c:673-793 | In every state that matches the cache: after a flush of stores, full or partial, and what is still held back, each register is at the place its error gives, the base is off by the trace's loss, and the cache is in step but for a base astray. |
| Flush.FlushLoads | ncc/arm/gen.c:673-793 | The same for loads. |
| Flush.FlushRefines | ncc/arm/gen.c:673-793 | If the flush neither strays nor overreaches, its instructions can be encoded, running them and then what is still held back (and the remaining adjust) does what the whole queue stood for, and the cache stays in step: full and partial flushes, loads and stores, live and dead base, recorded or not, pretended writeback included. |
| Flush.FlushEncodableIff | ncc/arm/gen.c:632-670 | Every instruction of a flush can be encoded if and only if none of its single transfers overreaches 12 bits. |
| Flush.DeathIrrelevant | ncc/arm/gen.c:768-769 | When the base itself is loaded, cancelling the adjust for a dead base makes no difference. |
| FlushExact.FlushExactIff | ncc/arm/gen.c:673-793 | For every queue and cache: a flush is right and keeps the cache in step in all states that match the cache, in instructions that can all be encoded, if and only if it does not stray and no single transfer overreaches 12 bits. |
| FlushExact.NothingStrays | ncc/arm/gen.c:576-613 | A flush strays only if a run straddles the adjustment or an addition reads back what it has changed, to some effect. |
| FlushExact.FlushStraddlesIff | ncc/arm/gen.c:576-613 | When the base is not recorded, as whenever an adjustment of a live base is pending, a flush strays if and only if one of its runs straddles the adjustment or the address of a run of loads is made in a register that the cache offers back; a flush of stores reads nothing back. |
| FlushExact.MissIff | ncc/arm/gen.c:576-613 | Then a register misses its place, in some state that matches the cache, if and only if its run comes after one that straddles or it is one of those read back. |
| FlushExact.BaseLost | ncc/arm/gen.c:576-613 | A base astray that is live, or dead but still recorded, is wrong (or out of step) in every state that matches the cache. |
| FlushExact.LoadLost | ncc/arm/gen.c:576-613 | If the trace lets a load miss, some state that matches the cache gets a wrong value. |
| FlushExact.StoreLost | ncc/arm/gen.c:576-613 | If the trace leaves a place without what is meant for it, some state that matches the cache ends with wrong memory. |
| FlushExact.FlushEncodable | ncc/arm/gen.c:632-670 | If all offsets and the adjust lie in a window of 12 bits, nothing overreaches and every instruction emitted can be encoded. |
| Combining.AcceptStep | ncc/arm/gen.c:807-862 | Queueing an access has the effect of doing it, including the dropped overwritten store and the replaced load of the same register, unless a mark of death is left over. |
| Combining.MarksIff | ncc/arm/gen.c:835-853 | The registers that a flush will free are dead in the program if and only if the register stored is not still marked dead from a store that was discarded. |
| Combining.FlushStep | ncc/arm/gen.c:795-797 | A flush that neither strays nor overreaches keeps the invariant, the program's state and the cache in step, in instructions that can be encoded. |
| Combining.RetryStep | ncc/arm/gen.c:881-887 | Such a flush before a second attempt keeps the state and leaves an empty queue on the same base, with the adjust carried over. |
| Combining.BaseStep | ncc/arm/gen.c:860 | A load of the base that is accepted, and whose flush does not fault, settles the whole queue and gives the base its word. |
| Combining.StepRefines | ncc/arm/gen.c:864-920 | Each access, addition, load of a constant or use that does not fault, with the cache killed where the source kills it (a base that is moved before the access, a register loaded after its load), keeps the invariant and the cache in step, and moves the program's state as in program order, in instructions that can be encoded. |
| Settling.UseReady | ncc/arm/gen.c:912-920 | Whatever is still held back, an instruction finds the registers it uses with the values the program has in them. |
| Settling.UntouchedStays | ncc/arm/gen.c:912-920 | An instruction that uses neither the base nor a queued register leaves the queue as it is, and nothing is emitted. |
| Settling.FarSideDone | ncc/arm/gen.c:1298-1316 | After an addition to SP no load is held back if SP went up and no store if it went down, unless the addition joined a queue of the stack pointer. |
| Settling.NearSideStays | ncc/arm/gen.c:1298-1316 | Stores when SP goes up and loads when it goes down, through another base, stay held back, and the addition is all that is emitted. |
| Settling.AdditionJoins | ncc/arm/gen.c:1298-1316 | An addition to the base of what is held back joins it, up to 4095 at a time, and nothing is emitted; the code of any other ends with it. |
| Settling.FlushRemembers | ncc/arm/gen.c:147-163 | A flush forgets no register but the base, those it loads and, for stores, spare and dying ones. |
| Settling.BaseForgotten | ncc/arm/gen.c:783-784 | A base that was not loaded is forgotten if and only if its movement was recorded. |
| Settling.QueuedSilently | ncc/arm/gen.c:807-862 | An access through the base of a queue of its kind is held back, unless it loads the base or stores a register still to be stored elsewhere: nothing is emitted or forgotten, of the others only a store to the same place leaves the queue, and a register to be loaded is spare until then. |
| Settling.StartsQueue | ncc/arm/gen.c:890-909 | With nothing held back an access whose register is not the base starts a queue of its own. |
| Settling.DoneAtOnce | ncc/arm/gen.c:890-902 | An access that cannot be held back is emitted at once, and just its two registers are forgotten. |
| Settling.SetRecorded | ncc/arm/gen.c:1291-1296 | A constant that has been loaded is recorded; of the other registers nothing more is learnt or forgotten than by the flush before. |
| Settling.MoreToCome | ncc/arm/gen.c:789-792 | When more accesses through the base are to come, what is left of its adjustment is not added. |
| Combining.RunRefines | ncc/arm/gen.c:864-920 | So does every run of them. |
| Combining.WholeRun | ncc/arm/gen.c:799-920 | From any cache in step: any run of word loads and stores (offset, pre- and post-indexed), additions, loads of constants (which are recorded) and uses that does not fault, ended by a flush, becomes instructions that can all be encoded and that leave the memory, flags and live registers of the same run in program order. |
| BaseLoads.BaseLoadIff | ncc/arm/gen.c:819-821 | A load of the base through a queue on that base, dead or live, accepted or refused, is done in every state that matches the cache, in instructions that can be encoded, if and only if its flush does not overreach and gives every register still needed its word, and, for a load that is itself needed, the flush leaves the base in place and the load is not refused twice, that is unless an adjust is pending that the flush does not use up. |
| BaseLoads.RefusedFaults | ncc/arm/gen.c:881-887 | For a load that is refused, that condition in terms of the plan: a register still needed whose run follows a straddling one or is read back, or, for a load that is needed, any straddling run or a second refusal. |
| CombinerFaults.StraddlingRun | ncc/arm/gen.c:576-581 | LDR r1, [r0, #-20]; LDR r2, [r0, #-16]! leaves a wrong base in every state. |
| CombinerFaults.LosingRun | ncc/arm/gen.c:881-887 | Two loads, ADD r0, r0, #100 and LDR r0, [r0]: r0 ends as the sum, whatever the memory holds. |
| CombinerFaults.FarRun | ncc/arm/gen.c:662-666 | Two accesses whose own offsets fit, and whose flush overreaches: it needs offset 8184. |
| CombinerFaults.StaleRun | ncc/arm/gen.c:835-853 | A dead STR of r0 that is discarded, a new value in r0, a STR of it and an STM out of reach: r0 ends as an address, whatever the machine held. |
| ReadBackRun.BaseReadBack | ncc/arm/gen.c:613 | MOV r0, #0x0ffff000; STR r1, [r0, #-4092]; STR r2, [r0, #-4088]: no run straddles and no offset is too wide, but in every state the word meant for 0x0fffe004 is written at 0xffffe008. |
| ReadBackRun.LastReadBack | ncc/arm/gen.c:588-613 | MOV r2, #0x0ffff000; LDR r1, [r0, #-4092]; LDR r2, [r0, #-4088]: the base is not recorded, no run straddles and no offset is too wide, but in every state both registers are loaded from twice r0 + 0xf0000004. |
| CombinerStates.CombinerState.constructor | ncc/arm/gen.c:503-508 | Starts with nothing pending and no code. |
| CombinerStates.CombinerState.LdmType | ncc/arm/gen.c:538-547 | Asks for writeback exactly when the move goes part of the way of the adjust, and then records it; otherwise changes nothing. |
| CombinerStates.CombinerState.PutSingle | ncc/arm/gen.c:641-666 | Emits the one transfer and updates both counters as specified. |
| CombinerStates.CombinerState.PutSingly | ncc/arm/gen.c:632-670 | The loop over the registers of a run emits the specified transfers. |
| CombinerStates.CombinerState.Kill | ncc/arm/gen.c:147-156 | Exactly the given registers are forgotten. |
| CombinerStates.CombinerState.GetTempReg | ncc/arm/gen.c:303-312 | The lowest spare register, if any, which is then forgotten. |
| CombinerStates.CombinerState.GenerateRun | ncc/arm/gen.c:549-671 | Appends exactly the specified code of one run and leaves the specified counters and cache. |
| CombinerStates.CombinerState.BuildRun | ncc/arm/gen.c:722-741 | The two loops over the neighbours take the specified run out of the queue. |
| CombinerStates.CombinerState.InsertRun | ncc/arm/gen.c:742-760 | The list walk inserts at the specified place. |
| CombinerStates.CombinerState.PretendWriteback | ncc/arm/gen.c:698-716 | Sets the adjust to the last offset exactly when, in register order, no positive offset is directly followed by a negative one, nor the other way round. |
| CombinerStates.CombinerState.PlanRuns | ncc/arm/gen.c:720-761 | Leaves exactly the planned runs and the planned rest of the queue. |
| CombinerStates.CombinerState.GenerateRuns | ncc/arm/gen.c:766-778 | Appends the code of the list; adjust, recorded movement, spare registers and cache are as specified. |
| CombinerStates.CombinerState.FlushRegs | ncc/arm/gen.c:673-793 | The whole new state and the emitted code are those of the flush about which FlushRefines and FlushExactIff speak. |
| CombinerStates.CombinerState.DiscardStore | ncc/arm/gen.c:835-842 | Forgets the first pending store to the place and no other. |
| CombinerStates.CombinerState.Enqueue | ncc/arm/gen.c:807-850 | Says yes exactly when the access can be queued; if no, nothing has changed. |
| CombinerStates.CombinerState.AddRegister | ncc/arm/gen.c:807-862 | The same, with the flush after a load of the base. |
| CombinerStates.CombinerState.StartInstruction | ncc/arm/gen.c:890-909 | What happens with nothing pending: emitted at once, or the first access of a new queue. |
| CombinerStates.CombinerState.OutInstruction | ncc/arm/gen.c:864-910 | New state and code are those of the step about which StepRefines speaks. |
| CombinerStates.CombinerState.FlushFor | ncc/arm/gen.c:912-920 | Flushes all, some or nothing according to the registers an instruction uses. |
| CombinerStates.CombinerState.AddConstantTo | ncc/arm/gen.c:1298-1316 | Defers the addition or flushes and emits it, as specified. |
| CombinerStates.CombinerState.SetConstant | ncc/arm/gen.c:1291-1296 | Flushes what is needed, loads the constant and records it. |
| CombinerStates.CombinerState.AccessWord | ncc/arm/gen.c:2283-2297 | A base that is moved is forgotten first; then the access is done or held back as specified. |
| CombinerStates.CombinerState.UpdateRegisters | ncc/arm/gen.c:1126-1142 | After an addition, a load of a constant or a use, registers written are neither spare nor known, except the constant just loaded; after a word access nothing is done. |
| CombinerStates.CombinerState.FeedAll | ncc/arm/gen.c:864-920 | A whole run of events gives the code and the queue about which WholeRun speaks. |
| CombinerStates.CompileRun | ncc/arm/gen.c:799-920 | Compiling a run that neither faults nor leaves the address space, and flushing, yields code, every instruction of which can be encoded, that in every state in step with the cache at the start ends like the program, up to dead registers. |
| PushPop.PushRefines | ncc/arm/gen.c:4610-4621 | For every set without SP and every limit of at least one, the pieces, which PushBounded keeps within the limit, leave the state that one STMFD leaves. |
| PushPop.PushBounded | ncc/arm/gen.c:4610-4621 | No piece of a push has more registers than the limit, and there are no more pieces than that needs. |
| PushPop.PopBounded | ncc/arm/gen.c:4807-4831 | No piece of a pop has more registers than the limit, or than three where the limit is smaller, and there are no more pieces than that needs. |
| PushPop.PopRefines | ncc/arm/gen.c:4807-4831 | For every set, with or without SP and PC, and every limit, the pieces leave the state that one LDMFD leaves. |
| PushPop.PopUndoesPush | ncc/arm/gen.c:4610-4831 | Popping what was pushed restores every register, SP included, whatever the two limits. |
| PushPop.LSBits | ncc/arm/gen.c:4592-4600 | The n lowest members. |
| PushPop.MSBits | ncc/arm/gen.c:4602-4608 | The n highest members. |
| Frames.SaveEffect | ncc/arm/gen.c:4674-4786 | After entry SP and FP stand at fixed distances from the entry SP, every register of the mask can be read at its rank above SP, pushed arguments lie next to the caller's, and all other registers are unchanged. |
| Frames.SaveBlocks | ncc/arm/gen.c:4674-4786 | Entry transfers no more registers at once than the limit, and a register is saved if and only if it is a variable register in use, an argument register wanted in memory, the link register where the body may change it, or with a frame pointer part of the frame. |
| Frames.ExitBlocks | ncc/arm/gen.c:4860-4959 | Exit transfers no more registers at once than the limit, or than three where it is smaller. |
| Frames.ArgumentAddress | ncc/arm/gen.c:4323-4385 | For every argument index and frame shape, the base register plus the computed displacement is where entry stored that argument or where the caller left it; with more than four words they form one array that ends with the caller's, with fewer those saved start at SP. |
| Frames.FrameRoundTrip | ncc/arm/gen.c:4888-4903 | With a frame pointer, after a body that keeps FP, the saved slots and the variable registers it is not said to use, exit restores the callee-saved registers, FP and SP and puts the return address in PC or LR; result registers, flags and memory stay as the body left them. |
| Frames.PlainRoundTrip | ncc/arm/gen.c:4904-4958 | The same without a frame pointer, with pushed arguments and a pending stack adjustment. |
| Frames.RoundTrip | ncc/arm/gen.c:4674-4959 | The same for every register mask, argument count, variadic or not, and LDM limit, and for every cache in step at the exit that does not record SP. |
| Frames.SingleReturn | ncc/arm/gen.c:4833-4959 | ReturnIsSingleInstruction says yes if and only if the exit to PC without stack adjustment is one instruction, with a frame pointer; without one it says no besides where the stack is to be moved by nothing or the pop goes over the limit without being split. |
| Frames.OneInstruction | ncc/arm/gen.c:4860-4959 | Exactly when that exit is one instruction, in terms of the registers used, the arguments pushed, the limit and the stack movement. |
| FrameStates.FrameState.constructor | ncc/arm/gen.c:4660-4664 | Frame variables are cleared. |
| FrameStates.FrameState.PushRegs | ncc/arm/gen.c:4610-4621 | Appends exactly the specified pieces, about which PushRefines and PushBounded speak. |
| FrameStates.FrameState.PutLow | ncc/arm/gen.c:4813-4824 | The loop appends the pieces below the last one. |
| FrameStates.FrameState.PopRegs | ncc/arm/gen.c:4807-4831 | Appends exactly the specified pieces, about which PopRefines and PopBounded speak. |
| FrameStates.FrameState.PlainSave | ncc/arm/gen.c:4686-4727 | Code and frame variables for a function without a frame pointer. |
| FrameStates.FrameState.FrameSave | ncc/arm/gen.c:4728-4786 | Code and frame variables for a function with one. |
| FrameStates.FrameState.RoutineSaveRegs | ncc/arm/gen.c:4674-4786 | The six frame variables left behind are those that exit and argument addressing rely on; the link register joins the register mask only without a frame pointer, where the body may change it. |
| FrameStates.FrameState.FrameExitTo | ncc/arm/gen.c:4888-4903 | Appends the specified exit with a frame pointer. |
| FrameStates.FrameState.MoveSp | ncc/arm/gen.c:4916-4935 | Appends the movement of SP before the pop. |
| FrameStates.FrameState.PlainExitTo | ncc/arm/gen.c:4904-4958 | Appends the specified exit without one. |
| FrameStates.FrameState.RoutineExit | ncc/arm/gen.c:4860-4959 | Appends the exit about which RoundTrip speaks. |
| FrameStates.FrameState.LocalAddress | ncc/arm/gen.c:4341-4385 | Computes the displacement about which ArgumentAddress speaks. |
| BlockMove.OutLdmIsBlock | ncc/arm/gen.c:432-448 | LDR or STR in place of a one-register block leaves the same state, in all four modes, with and without writeback. |
| BlockLength.OneByOne | ncc/arm/gen.c:432-448 | LDR or STR is written if and only if there is one register, with an offset unless it writes back. |
| BlockLength.FillingsOneByOne | ncc/arm/gen.c:2594-2605 | Every filling of a line but the last is written so. |
| BlockMove.SomeData | ncc/arm/gen.c:2537-2574 | A data register is always left beside a loop counter, and the data registers keep the limit. |
| BlockLength.LowestTaken | ncc/arm/gen.c:2549-2573 | The counter of a loop is the lowest work register, and the data registers are the lowest of the others. |
| BlockLength.LastLowest | ncc/arm/gen.c:2618-2623 | What is left at the end goes through the lowest data registers, one for each word. |
| BlockMove.PieceRun | ncc/arm/gen.c:2602-2623 | One load and store carries exactly the next words across and moves the pointers only as asked. |
| BlockMove.StraightRun | ncc/arm/gen.c:2594-2623 | The unrolled loop, with the remainder and the dead source register used as an extra one, finishes the block. |
| BlockMove.LoopRun | ncc/arm/gen.c:2606-2617 | The emitted loop terminates after exactly the loaded count and leaves the remainder to do. |
| BlockMove.ExpandCorrect | ncc/arm/gen.c:2517-2626 | For every word-multiple size, non-overlapping blocks and cache in step the code ends, in one final state only, with the source copied (or zeros, or the block pushed), no other word changed, and every register kept but the two pointers, A4, IP, above 24 bytes A2 and A3, and those named as free. |
| BlockMove.PreservingIff | ncc/arm/mcdep.c:822-833 | When movc_preserving_r1r2 says yes, the destination register is preserved in every state if and only if the block goes in one transfer: it fits the LDM limit and, with post-indexing, needs no extra register. |
| BlockMove.DestinationAfter | ncc/arm/mcdep.c:822-833 | In every single state too: it is preserved if and only if the block goes in one transfer. |
| BlockMove.SourceAfter | ncc/arm/mcdep.c:822-833 | The source register too: of a copy without post-indexing from a source that stays in use it ends as it was, in each single state, if and only if the block goes in one transfer. |
| BlockMove.SourcePreserved | ncc/arm/mcdep.c:822-833 | Also when the source dies, if the block goes in one transfer without needing it as an extra register. |
| BlockMove.BlockCacheIff | ncc/arm/gen.c:2536-2670 | Whatever is forgotten at the end, the cache is in step after the block, in each single state, if and only if the counter of a loop is forgotten, and each pointer that is recorded and not forgotten has kept its value. |
| BlockMove.UsageEnough | ncc/arm/mcdep.c:685-711 | With no spare register added, what the operation is said to write or spoil covers the counter: the cache is in step afterwards if and only if the pointers not said to be written have kept their values; a pointer that is no work register is said to be written if and only if the block is a push, the source is post-indexed, or the block exceeds the work registers, by more than a word for the source. |
| BlockLength.LineLength | ncc/arm/gen.c:2587-2623 | The length of a line: a load and a store, or for a clear a store, each time the data registers are filled, the dying source register saving one filling, and one instruction to clear each data register. |
| BlockLength.LoopLength | ncc/arm/gen.c:2587-2623 | The length of a loop: loading the counter, a load and a store, counting down and branching, and a load and a store for a rest. |
| BlockLength.LoopIff | ncc/arm/gen.c:2542-2547 | A loop is written if and only if the block has more than 24 bytes and a line, without regard to the limit, would need more than four fillings. |
| BlockLength.ReservedIff | ncc/arm/gen.c:2576-2583 | What is emitted fits the number of instructions reserved if and only if a line fills its registers at most three times (six for a clear), and a loop loads its counter and deals with its rest in three instructions. |
| BlockLength.ClearFits | ncc/arm/gen.c:2576-2583 | The line of a clear whose registers the limit allows always fits. |
| BlockMove.Zero | ncc/arm/gen.c:2587-2592 | The loop zeroes the data registers and records them as 0. |
| BlockMove.ChooseRegs | ncc/arm/gen.c:2536-2574 | Loop or line, counter and data registers are those specified, and are forgotten. |
| BlockMove.Unroll | ncc/arm/gen.c:2594-2623 | The loop emits the specified line. |
| BlockMove.ExpandBlock | ncc/arm/gen.c:2517-2626 | The choice of registers and of loop or line gives the specified expansion and leaves the specified cache. |
| Counterexamples.DestinationMoves | ncc/arm/mcdep.c:822-833 | Four words, four work registers and a limit of three: the destination register moves in every state. |
| Counterexamples.DestinationMovesPost | ncc/arm/mcdep.c:822-833 | Four words within the limit, post-indexing and a dying source: the fourth word needs a second transfer, and the destination register moves. |
| Counterexamples.CounterStale | ncc/arm/gen.c:2536-2670 | Fifty words with r0 added as a spare register: whatever the cache held, it is out of step afterwards. |
| Counterexamples.EightInstructions | ncc/arm/gen.c:2542-2583 | Sixteen words copied through four work registers: eight instructions, where seven are reserved. |
| Int64.UCmp | ncc-support/int64-runtime.c:45-50 | 1, 0 or -1 as the first 64-bit value is greater, equal or less. |
| Int64.SCmp | ncc-support/int64-runtime.c:52-57 | The same for the signed values. |
| Int64.Mul32Exact | ncc-support/int64-runtime.c:60-81 | No carry is lost: the 64-bit result is the exact product. |
| Int64.MulCorrect | ncc-support/int64-runtime.c:202-242 | The product modulo 2^64. |
| Int64.ShiftLCorrect | ncc-support/int64-runtime.c:133-151 | Multiplication by 2^sh modulo 2^64 for every count; no shift for negative counts. |
| Int64.UShiftRCorrect | ncc-support/int64-runtime.c:153-171 | Division by 2^sh rounded down for every count; no shift for negative counts. |
| Int64.SShiftRIff | ncc-support/int64-runtime.c:173-198 | An arithmetic shift if and only if the value is not negative or the count is not between 33 and 63. |
| Counterexamples.MinusOneShifted | ncc-support/int64-runtime.c:189-191 | -1 shifted by 33 gives -0x80000001. |
| Int64.NegDCorrect | ncc-support/int64-runtime.c:304-316 | Negation by halves is negation modulo 2^64. |
| Int64.UDiv | ncc-support/int64-runtime.c:246-286 | The 64 restoring steps give the quotient rounded down for every nonzero divisor, also from 2^63 up; a zero divisor gives 2^32 - 1. |
| Int64.SDiv | ncc-support/int64-runtime.c:288-328 | Truncating division modulo 2^64, -2^63 by -1 included; a zero divisor gives 1 or 2^32 - 1. |
| FpMap.ItemsRoundTrip | ncc/armthumb/asd.c:1681-1700 | In either byte order, decoding the items gives back every distance and change. |
| FpMap.ItemsIff | ncc/armthumb/asd.c:1681-1700 | For every list in order and within range: decoding gives back its items if and only if no entry changes nothing at no distance. |
| FpMap.UntoldMisread | ncc/armthumb/asd.c:1684-1689 | No list that starts with such an entry is read back, whatever follows. |
| FpMap.ScanFits | ncc/armthumb/asd.c:1645-1658 | The items of a fragment stay below its 16-bit length, header included; why no more of them were taken is ScanStops. |
| FpMap.ItemLayout | ncc/armthumb/asd.c:1681-1700 | The bytes of an item, in either order: the distance and the change if they are below 256 and between -127 and 127, otherwise two zero bytes and two bytes for each. |
| FpMap.ScanStops | ncc/armthumb/asd.c:1645-1658 | A scan takes the entries up to the first whose distance or change has no form, or whose item would take the bytes so far to 0xffe8: none before it does. |
| FpMap.OneFragment | ncc/armthumb/asd.c:1638-1708 | Every nonempty list whose entries all have a form, and whose items stay below 0xffe0 bytes, becomes one fragment with all of them over the whole procedure, and its last entry breaks none. |
| FpMap.Tiling | ncc/armthumb/asd.c:1644-1707 | Fragments follow one another without gap or overlap, only the first has the save address, and each length fits 16 bits. |
| FpMap.MapReads | ncc/armthumb/asd.c:1638-1708 | At every address a fragment covers, reading it gives the offset in force there. |
| FpMap.CoverageIff | ncc/armthumb/asd.c:1672-1706 | Every address of the procedure is covered if and only if the last entry breaks no fragment or stands at the end. |
| FpMap.MapRoundTrip | ncc/armthumb/asd.c:1638-1708 | For every procedure whose last entry breaks no fragment (OneFragment: any list that fits one) and whose entries can be told from the escape, a reader finds the right offset at every address. |
| FpMap.TrailingIdleHarmless | ncc/armthumb/asd.c:1681-1700 | After any list that can be told from the escape, an idle last entry does no harm to a reader of offsets, though decoding does not give it back. |
| Counterexamples.LastChangeLost | ncc/armthumb/asd.c:1672-1706 | One change 64 kilobytes into a procedure leaves the code after it without a fragment. |
| FpMap.FpTable.Measure | ncc/armthumb/asd.c:1645-1658 | The first pass counts the entries that fit, by their short or long form, and their bytes. |
| FpMap.FpTable.Fill | ncc/armthumb/asd.c:1681-1701 | The second pass fills a fresh buffer with exactly the items and zeros up to a word. |
| FpMap.FpTable.NoteFpDesc | ncc/armthumb/asd.c:1638-1708 | Appends exactly the procedure's fragments and adds their length to the size. |
| Coff.ListAgrees | ncc/arm/coff.c:1625-1657 | In each pass item i is written where it was numbered, and the pass writes as many records as it numbered. |
| Coff.SymsAgree | ncc/arm/coff.c:1659-1666 | The same for the symbols left over. |
| Coff.NumberingMatchesWriting | ncc/arm/coff.c:1668-1706 | The six writing passes put every item and symbol at the index the six numbering passes gave it, and write exactly the returned number of records. |
| Coff.TableOrder | ncc/arm/coff.c:1668-1706 | Local items come first, then local symbols, defined items, external symbols, undefined items and undefined symbols; within each group the order is that of the list. |
| Coff.RecordShape | ncc/arm/coff.c:1476-1598 | An item has one record that stands for something, a procedure two, a tag one for each member and two for itself; each has at most one auxiliary record, and the first has one unless it is a variable or type name without dimensions and tag. |
| Coff.EndReference | ncc/arm/coff.c:1501-1520 | A procedure or block refers to the record after its end, which is where the next item is numbered. |
| Coff.FileReference | ncc/arm/coff.c:1482-1500 | Each .file record refers to where the next one is written, the last to where the global part begins. |
| Coff.TagReference | ncc/arm/coff.c:1551-1562 | A tag of the global list refers to just after its last record if and only if an item follows and is numbered in the same pass, or no record is numbered between the two. |
| Coff.TagReferenceAstray | ncc/arm/coff.c:1551-1562 | A concrete list where it does not: a tag before an undefined variable. |
| Coff.FixDbgList | ncc/arm/coff.c:1600-1615 | In one pass an item is left an undefined variable if and only if it was one and its symbol is absent or not defined; one that no longer is becomes a variable with the same symbol and type, all others stay, and just the symbols that items mention are marked. |
| Coff.FixedSettles | ncc/arm/coff.c:1600-1609 | The list after fixing, item by item: undefined if and only if it was and its symbol is still not defined. |
| Coff.MarkedOnly | ncc/arm/coff.c:1610-1613 | After both lists a symbol is marked if and only if it was before or some item mentions it, and nothing else of it has changed. |
| Coff.NumberEntries | ncc/arm/coff.c:1617-1657 | Writes the index of each selected item and of each symbol it names, and no other. |
| Coff.RenumberSyms | ncc/arm/coff.c:1659-1666 | Writes the index of each symbol of the class, section records counted twice, and no other. |
| Coff.WriteEntries | ncc/arm/coff.c:1482-1598 | Appends the records of the selected items in order. |
| Coff.OutSymtab | ncc/arm/coff.c:367-399 | Appends the records of the class in order. |
| Coff.ExternalIndex | ncc/arm/coff.c:1685-1690 | After the six passes a symbol's index is its own place, or that of an item that names it. |
| Coff.DebugTable.Fix | ncc/arm/coff.c:1683-1684 | The same for both lists: each item is settled by whether its symbol was defined, and a symbol is newly marked if and only if an item of either list mentions it. |
| Coff.DebugTable.Number | ncc/arm/coff.c:1685-1690 | All indices are those of the specification, and the count is returned. |
| Coff.DebugTable.Write | ncc/arm/coff.c:1695-1706 | The stream is the concatenation of the six passes. |
| Coff.DebugTable.Emit | ncc/arm/coff.c:1668-1706 | After fixing, numbering and writing, each stored index of an item, or of a symbol that is mentioned or left over, is where its record stands in the stream; items and symbols have been settled and marked as Fix says. |

## Left out

Contracts that say less than one might want:

- LoadConstant.LoadIntegerI: recording the loaded value is left to the caller, as in the source (ncc/arm/gen.c:3708-3709).
- CompareConstant.CompareCorrect: when the kind of test is unknown (Q_UNDEF, or code that is itself conditional) the source may emit nothing, and only the one-instruction case is claimed; CompareConstant.CompareIff leaves that kind of test out.
- FlushExact.FlushExactIff: offsets and adjust are word multiples. When the base is recorded, what an addition misses by can cancel the drift of a straddling run; NothingStrays gives both causes, and only FlushStraddlesIff, for a base that is not recorded and offsets within 2^26, says that each of them is always enough.
- Combining.StepRefines: its faults are sufficient for something to go wrong only as far as FlushExactIff, BaseLoadIff and MarksIff say so; a flush that only spoils dead registers counts as a fault too.
- BlockMove.ExpandCorrect: sizes are word multiples below 2^31, as for the aligned operations in the source; where the blocks overlap nothing is claimed.
- FpMap.MapRoundTrip: that entries can be told from the escape is sufficient, not necessary, for a reader of offsets (TrailingIdleHarmless); for the items themselves it is exact (ItemsIff).
- Coff.NumberingMatchesWriting: requires that exactly the symbols flagged as sections are the three that get a section record; type and tag references inside records are numbers without meaning here, and the contents of records other than their place, the file, end and tag references are not modelled.
- Frames.RoundTrip: the body is any change of state that keeps the saved slots and FP (or SP); FP is not among the registers used by a framed function (ncc/arm/gen.c:5395).

The combiner:

- Offsets and adjusts are unbounded integers kept within half the address space; memory is a map of words, and unaligned and halfword accesses are outside it.
- Instructions other than word transfers, additions to a register and loads of constants appear only as `Use`, the set of registers they need settled; that the rest of the compiler passes the right set, what else those instructions write or kill in the cache, and updates of `regmask` are outside.
- After instructions other than word accesses, UpdateRegisters also puts registers that die there among the spare ones (ncc/arm/gen.c:1134-1136); in the model no register dies at an addition or a load of a constant. After a word access it does nothing (RU_NONE), in the model too: a dead register becomes spare when its store is done, and a dead base when the queue ends.
- Routine entry starts from the empty cache that `localcg_reinit` leaves (ncc/arm/gen.c:5333-5340).
- Which registers are named in a block move before spare ones are added, and which of the pointers its users take to be spoilt; BlockCacheIff holds whatever they are.
- LDRT and STRT, PC as base or destination, conditional flushes, and notes about SP for the debugger (`fpdesc_notespchange`).
- The linked list of runs is a sequence, so its cells and their reuse are not captured.

Constants:

- Cost choices (`integer_load_max`, `multiply_cycles`, literals instead of code): each candidate sequence is proved, not that the cheapest is chosen.
- The dead-result and flags-only cases of `and_integer` (TST), `teq_integer`, `tst_integer`, `adc`, `sbc`, `rsb`, `rsc` and `mla_integer`: variations on the sequences proved.
- Literal pools and label limits: codebuf.c is not part of this model, and pool dumps are taken as absent.

Frames and blocks:

- Floating-point registers, reentrant, interworking and interrupt frames, stack-limit checks, profiling, conditional exits and restoring the PSR on return.
- Label addresses: the loop of a block move is a body repeated while Z is clear.

Tables:

- The reversal of the two debug lists and the linked lists themselves: items are sequences with indices in arrays.
- `Ignore` entries, and line numbers, strings, types and section headers in COFF; areas and file output in the offset map.

The peephole optimiser is left out because its pattern tables (peeppat.c) are not part of this model.
