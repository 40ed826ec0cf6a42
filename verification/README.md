# Sedona VM and JDWP debugger: a verified model

This project models the parts of a Sedona virtual machine and of the JDWP debug server built into it that hold the
most state, and proves what they promise. Everything is Dafny; `dafny verify dfyconfig.toml` checks the project.

The virtual machine keeps parameters, return addresses, saved frame pointers, locals and operands of all activations
in one cell array and reaches them by raw offsets. `FlatMachine` is that machine step by step, `SedonaVm` the same
machine as a class that updates the array in place, with natives that call back into it. `FrameMachine` is a machine
whose state is a list of frames, `Evaluator` a recursive evaluator without any stack. `Simulation` proves that the
raw-offset machine does, step for step, what the frames do as long as there are cells; `StackEnd` cuts the array to the
cells the source allocates and proves exactly which steps run off its end; `Overflow` has an image that does so on
every stack. `Staleness` proves that runs do not depend on uninitialised locals when locals are stored before they
are loaded, and `VmCall` puts all of it together: vmCall answers what the evaluator answers, whatever the array held.
`StackLeak` is about vm->sp, which natives raise and nothing lowers. `Fusion`, `FusionLayout` and `FusionCalls` prove
that fused opcodes mean their base sequences with all code addresses moved, up to vmCall on the cell array; they ask
only of what the typing knows. `Relocation` proves it of the bytes, opcode by opcode, and `Assembler` is a function that
lays out and writes the expansion of any code segment. `FusionStale` and `FusionNull` show two segments whose calls
differ from those of their assembled expansions. `ForeachLoop` is about what a Foreach loop does; `AluLaws` and
`Shuffles` relate the data instructions to each other and to the cell moves of the Dup opcodes; `Natives`, `Slots` and
`InlineArrays` cover natives that re-enter the machine, typed slots and inline object arrays. `Scode` decodes the bytes
of an image. `Opcodes`, `LongOpcodes`, `MemoryOpcodes` and `ControlOpcodes` say, by the opcode numbers of `scode.h`,
what one pass of the loop does to cells, registers and heap bytes; their statements name neither the decoder nor its
instructions. `Answers` carries them through vmCall, from the bytes of a method to the value the host gets, and
`ArraySum` and `VirtualCall` do so for a program with a loop and one that calls through a vtable; `AssembledSum` for the
former as the assembler rewrites it.

SHA-1 is the streaming context of `inet_sha1.c` (`Sha1Context`), proved against RFC 3174 as a function of the whole
message (`Sha1Spec`, `Sha1Protocol`); `Sha1Laws` says what its word functions and constants are, and `Sha1Vector`
computes a published digest.

The debug server is modelled as its wire layer (`Packets`, `ModifiedUtf8`), the class registry and its AllClasses
reply (`RefTypes`), the event queue and its dispatcher (`EventQueue`, `Events`), the handshake between the machine's
thread and the debugger's thread (`Handshake`, `VmController`), and the reader of class metadata (`Text`, `Jbase`).
`Ticks` is the millisecond counter with its roll-overs.

Conventions. A cell is a signed 32-bit word and a 64-bit value two adjacent cells, low word first; byte order is
little-endian; the null, missing-native and balance tests of `SCODE_DEBUG` are on. Object memory is a byte map apart
from the cell stack. An image is a partial map from code offsets to instructions; the float unit, the native table,
the vtable lookup and the addresses of code, data and stack are parameters. `Typing` gives an operand height per code
offset and a result size per method; `WellFormed` says that heights agree at all jump, Switch, Foreach and call
targets and that indices and call arities match the method headers. A native is an `Act`: callbacks into the machine,
then a result. A `Tick` holds what the frame machine and the evaluator cannot know about a step: the stale cells that
a new frame's locals name. `Definite` says that on every path locals are stored before they are loaded, `DeafNatives`
that no native looks at what a void callback returns; for such images blank ticks do, and nothing needs to be known.

Where the code does not do what its comments intend, the code is modelled and the exact condition is proved: the
overflow test that looks only at sp, before the instruction (`StackEnd.AstrayExactly`, failing input
`Overflow.EveryStackOverruns`), the missing null test of fused inline loads (`Fusion.StepExpandsExactly`, failing
input `FusionNull.NullArgumentDiffers`), fused comparisons that leave other dead cells than their base opcodes
(`Staleness.LoadExact`, `FusionStale.StaleLocalDiffers`), vm->sp that a test runner raises with every test
(`StackLeak.CallbackVmsp`, `Natives.TestsRunOut`, `TestLeak.TestsLeak`), the resume guard (`Handshake.ResumeExact`),
the suspend counter at 255 (`Handshake.PollEnds`, `Handshake.WrapSkips`), the three-byte branch of `read_utf`
(`ModifiedUtf8.ReadInvertsExactly`), member arrays beyond 65534 entries (`RefTypes.StoresExactly`,
`Jbase.ParsePrint`), the doubling loop on an empty buffer (`Packets.DoublingEnds`), an integer slot set to a value
that does not fit (`Slots.Memory.DoSetInt`, `Slots.ByteCut`), calls to `ticks` more than one roll-over apart
(`Ticks.TotalsExact`, `Ticks.PeriodLost`), and the balance warning (`VmCall.ImbalanceExact`).

The main results are marked **main** in the table; the other rows are the steps they rest on. `Handshake.Transparent`
holds almost by construction, because no step of the poll and no request of the debugger touches the machine;
`Handshake.NeverStuck`, `Handshake.PolledFirst` and `Handshake.PollEnds` say that the machine goes on, that it polls
first, and what becomes of the requests.

## Model

| member | source | states |
|---|---|---|
| FrameMachine.StepTyped | svm/vm.c:1439-1452 | progress and preservation: in a well-formed image no step underflows its operands or leaves its frame, and operand heights stay as declared |
| FrameMachine.RunTyped | svm/vm.c:1508-2300 | **main**: the same stack discipline over every run |
| Simulation.OpsLaid | svm/vm.c:1439-1452 | replacing a frame's last operands in the cell array changes nothing below them: the frames stay laid out as before |
| Simulation.VarLaid | svm/vm.c:1577-1617 | storing a parameter or local through pp or lp changes that variable of the top frame and no saved word |
| Simulation.CalleeLaid | svm/vm.c:2070-2091 | the entry sequence turns the caller's last operands into the callee's parameters where they lie, with return cp, old fp and method above them |
| Simulation.EntryLaid | svm/vm.c:1496-1505 | the entry sequence of vmCall lays out a first frame with zero return cp and fp |
| Simulation.UnwindMatches | svm/vm.c:2157-2242 | a return leaves the caller's parameters, locals and remaining operands as they were, with the result in place of the arguments; from the entry frame it hands back the value |
| Simulation.CallMatches | svm/vm.c:2066-2110 | LoadParam0Call, Call and CallVirtual push one frame on the list of frames |
| Simulation.NativeMatches | svm/vm.c:2112-2155 | calling a native saves sp and gives it exactly its parameters |
| Simulation.ActMatches | svm/vm.c:1482-1505 | a native's callback starts a vmCall above everything in use; its result replaces the arguments |
| Simulation.MoveMatches | svm/vm.c:1515-2300 | on an array with room for everything, one step of the raw-offset machine is one step of the frame machine |
| StackEnd.StepMatches | svm/vm.c:1515-2300 | **main**: on an array of exactly the cells that the overflow limit names, one step of the raw-offset machine is one step of the frame machine, and where the frames overrun the stack it goes astray |
| StackEnd.AstrayExactly | svm/vm.c:1525-1534 | **main**: where calls name methods the typing allows, a step uses an index outside the array, or a wrong address, if and only if it passes the null and overflow tests and its highest cell lies behind the last one: sp minus pops plus pushes, sp+3 for a call, sp+4 with parameter 0 pushed first, vm->sp+argc+3 for the entry of a callback |
| StackEnd.RunMatches | svm/vm.c:1459-2300 | **main**: whole runs agree up to the first step that overruns the stack; without one, no raw offset leaves the array or hits a saved word |
| Overflow.PushAtEnd | svm/vm.c:1525-1534 | with the last cell in use the overflow test passes, and a push writes behind the array |
| Overflow.EveryStackOverruns | svm/vm.c:1525-1548 | for every stack size there is a code segment, straight pushes by LoadI5, that loads to a well-formed image and whose vmCall goes astray, whatever the array holds and wherever code and stack lie |
| StackEnd.SpareRun | svm/vm.c:1525-1534 | the remedy: with 1024 cells behind the overflow limit no run of a well-formed image goes astray while vtables and natives name methods the typing allows |
| VmCall.SpareCall | svm/vm.c:1459-1505 | the same for whole calls, whatever the array holds |
| Evaluator.EvalMethod | svm/vm.c:1459-1505 | an evaluated method yields exactly one cell and never more ticks than it was given |
| Evaluator.RunIsEval | svm/vm.c:2066-2242 | **main**: running a frame, whatever lies below it, is evaluating its body recursively and then continuing the caller with the result |
| Evaluator.CallIsEval | svm/vm.c:2070-2110 | a call is the recursive evaluation of the callee on the last operands, after which the caller goes on with the same variables and the remaining operands |
| Evaluator.ActIsEval | svm/vm.c:2120-2155 | a native's callbacks are recursive evaluations, one after the other |
| Staleness.LoadExact | svm/vm.c:1588-1602 | a load of locals reads the same from every frame that agrees on the stored locals if and only if it names stored ones |
| Staleness.StepSame | svm/vm.c:1515-2300 | where locals are stored before they are loaded, configurations that differ only in cells never stored step to such configurations, whatever new frames find |
| Staleness.RunSame | svm/vm.c:1459-2300 | **main**: so no run depends on those cells |
| VmCall.CallOnCells | svm/vm.c:1459-1505 | for every well-formed image vmCall answers, stops, fails and goes astray as the recursive evaluator does when it is told what new frames find in their locals |
| VmCall.CallIsEval | svm/vm.c:1459-1505 | **main**: where locals are stored before they are loaded and natives ignore the results of void callbacks, vmCall answers, stops, fails and goes astray as the recursive evaluator says, for every method, arguments, contents of an array of exactly the allocated cells, and number of steps |
| VmCall.ImbalanceExact | svm/vm.c:2161-2168 | the balance warning fires on a return if and only if the declared height there is not the result's size |
| VmCall.NeverWarns | svm/vm.c:2191-2227 | with balanced returns no run of a well-formed image ever reaches a warning |
| VmCall.FpChainDescends | svm/vm.c:483-487 | the saved frame pointers are, entry by entry, the fp of each frame of the vmCall, innermost first, and descend by three cells or more to its entry frame |
| VmCall.NestedStep | svm/vm.c:1482-1505 | a step under a suspended native leaves every cell up to that native's sp alone |
| VmCall.CallbackAbove | svm/vm.c:2120-2155 | the vmCall that a native's callback starts runs above that suspended native |
| VmCall.NestedCallPreserves | svm/vm.c:2120-2155 | **main**: however deep natives and callbacks nest, a callback changes no cell at or below the sp its native was called with, gives that native control back, and leaves vm->sp at or above that sp |
| VmCall.VmspMoves | svm/vm.c:2122-2138 | vm->sp changes only when a native is called, and then to the caller's sp |
| StackLeak.StepRaised | svm/vm.c:2120-2151 | within a callback everything stays at or above the callback's first parameter, and vm->sp is as it was or above the whole entry sequence |
| StackLeak.CallbackVmsp | svm/vm.c:1482-1505 | **main**: from its entry until its native is back in control, a callback that calls no native leaves vm->sp as it was, and one that calls a native, at any depth, leaves it at least three cells higher |
| StackLeak.RepeatsOnce | natives/sys_Test.c:33-41 | one callback that ends, with a native called on the way, is one of the callbacks counted next |
| StackLeak.ReachedGood | svm/vm.c:1459-1505 | these statements hold of every state that a vmCall reaches while no native and no vtable names a method the typing does not allow |
| StackLeak.RunsOut | svm/vm.c:2120-2151 | a native that calls back k times, each time with a native called on the way, raises vm->sp by at least 3k, and 3k cells must still have been free |
| SedonaVm.Vm.Store | svm/vm.c:1496-1501 | cells from one index on are overwritten, all others keep their value |
| SedonaVm.Vm.ExecSimple | svm/vm.c:1543-1600 | the in-place effect of operand-only instructions is the step of the flat machine |
| SedonaVm.Vm.ExecVar | svm/vm.c:1577-1617 | the same for loads and stores of variables |
| SedonaVm.Vm.Invoke | svm/vm.c:2081-2091 | the common call tail writes the three saved words and sets fp, pp, lp, sp and cp |
| SedonaVm.Vm.ExecCall | svm/vm.c:2066-2110 | the in-place effect of the call instructions is the step of the flat machine |
| SedonaVm.Vm.Unwind | svm/vm.c:2157-2242 | the same for the three returns |
| SedonaVm.Vm.Begin | svm/vm.c:1485-1505 | the entry sequence writes the arguments and three saved words above vm->sp, or refuses a wrong number of arguments |
| SedonaVm.Vm.Exec | svm/vm.c:1536-2300 | the switch on the opcode is the step of the flat machine |
| SedonaVm.Vm.Call | svm/vm.c:1459-2300 | **main**: vmCall as a loop over the cell array: its reply, the array, vm->sp and the world are those of the flat machine's run |
| SedonaVm.Vm.ExecNative | svm/vm.c:2112-2155 | a native runs to its end with any number of recursive vmCalls, and the flat machine agrees |
| SedonaVm.Vm.Entry | svm/vm.c:259-279 | **main**: on an array of exactly the allocated cells vmEntry puts -1 in the first one and answers what the evaluator answers; it goes astray where the evaluator overruns the stack and nowhere else |
| ForeachLoop.Head | svm/vm.c:1812-1825 | one Foreach test takes the machine from the head either to the exit or into the body with array and index pushed, the counter one higher |
| ForeachLoop.StepKept | svm/vm.c:1812-1825 | until the machine is back at the Foreach, a body that by its typed heights pops nothing of the loop's own leaves the array and length cells and everything below alone, across branches, calls, natives and callbacks |
| ForeachLoop.RoundRuns | svm/vm.c:1812-1825 | so a round that comes back with the index on top leaves them as they were |
| ForeachLoop.LoopFrom | svm/vm.c:1812-1825 | from any counter the machine runs the rounds of the body for the remaining indices in order and reaches the exit |
| ForeachLoop.ForeachRuns | svm/vm.c:1851-1864 | **main**: entered with counter -1 the machine reaches the exit after exactly the rounds for the indices 0 to len-1, in order, with array and length cells intact, whatever called the method; of a round only its effect on variables and world is asked, and that the index is on top again |
| ForeachLoop.EndlessBody | svm/vm.c:1812-1825 | a body that never comes back to its Foreach is not balanced |
| ArraySum.SumWellFormed | svm/vm.c:1508-2300 | the bytes of an array sum load to a well-formed image |
| ArraySum.SumDefinite | svm/vm.c:1588-1602 | whose local is stored before it is loaded |
| ArraySum.SumReturnsBalanced | svm/vm.c:2157-2168 | and whose return is balanced |
| ArraySum.SumBalanced | svm/vm.c:1812-1829 | and whose loop body comes back with the index on top, having added one element |
| ArraySum.SumAnswers | svm/vm.c:1459-2300 | **main**: vmCall of these bytes answers the sum of the array's words in 32 bits, for every array, length, heap, contents of the stack and place of code and stack, and leaves the world as it was |
| AssembledSum.MovedSumAnswers | svm/vm.c:1459-2300 | and so does vmCall of the bytes that the assembler writes for them, with every branch and short form rewritten |
| VirtualCall.SlotWellFormed | svm/vm.c:2094-2110 | the bytes of a method that calls through the vtable of its argument load to a well-formed image |
| VirtualCall.DispatchAnswers | svm/vm.c:2094-2110 | **main**: vmCall of them answers what the method of the object's class returns, by the vtable that the object's first half-word names |
| ArraySum.NullAnswers | svm/vm.c:1520-1523 | for a null array with elements it answers the error 100 |
| Fusion.CompareJumpAlike | svm/vm.c:1870-1968 | a fused compare-and-jump is the comparison followed by JumpNonZero |
| Fusion.Param0CallAlike | svm/vm.c:2066-2091 | LoadParam0Call is LoadParam0 followed by Call, with the same return point |
| Fusion.Param0InlineAlike | svm/vm.c:2053-2055 | LoadParam0InlineField is LoadParam0 followed by LoadInlineField, except that only the latter stops on null |
| Fusion.InlinedAlike | svm/vm.c:2058-2060 | LoadDataInlineField is LoadDataAddr followed by LoadInlineField |
| Fusion.StepExpands | svm/vm.c:1870-2091 | one step of a fused image is one or two steps of its expansion, natives, callbacks, virtual calls, overflow and overrun included |
| Fusion.StepExpandsExactly | svm/vm.c:1520-1523 | **main**: exactly then: one step and its expansion agree if and only if no fused inline load meets a null parameter |
| Fusion.RunExpands | svm/vm.c:1796-1968 | every run of frames without a null in a fused inline load is a run of the expansion: same values, worlds, errors and frames, jump offsets, return points and vtable targets moved |
| Fusion.CallExpands | svm/vm.c:1459-1505 | the same from the entry of a method on, for frames that find the same stale cells |
| Fusion.NullDiffers | svm/vm.c:1520-1523 | at a null parameter the fused load goes on and the expansion returns the null error |
| FusionNull.NullArgumentDiffers | svm/vm.c:2053-2055 | failing input in bytes: the call of a fused getter answers the field address for every argument, that of the assembled one does so exactly if the argument is not null |
| FusionLayout.ExpansionWellFormed | svm/vm.c:1870-2091 | with the typing moved along, any expansion of a well-formed image is well-formed |
| FusionLayout.ExpansionDefinite | svm/vm.c:1870-2091 | and stores its locals before it loads them if the image does |
| FusionCalls.VmCallExpands | svm/vm.c:1459-1505 | vmCall of a method of a fused image and of its expansion, on two cell arrays with any contents, end alike: value, world and vm->sp, fault or overrun |
| FusionCalls.VmCallMoved | svm/vm.c:1459-1505 | and with the typing moved along nothing but the expansion of the typed instructions is asked |
| Relocation.ItemDecodes | svm/vm.c:1577-2110 | opcode by opcode: short forms spelled out, near branches made far, fused instructions split, and offsets, Switch tables and method blocks rewritten decode to the base sequence at its new place |
| Relocation.RelocatedExpands | svm/vm.c:1577-2110 | a code segment whose typed instructions, headers and vtable entries are so rewritten loads to an expansion |
| Assembler.ShortFits | svm/vm.c:1792-1968 | up to 32 KB every rewritten offset and block fits its operand |
| Assembler.AssembledExpands | svm/vm.c:1577-2110 | **main**: the assembler writes, for every segment whose typed instructions do not overlap and whose new offsets fit, bytes that load to an expansion of it |
| Assembler.AssembledCall | svm/vm.c:1459-1505 | **main**: vmCall of a method of a loaded segment and of the assembled one, on two cell arrays with any contents, end alike: value, world and vm->sp, fault or overrun |
| FusionStale.StaleLocalDiffers | svm/vm.c:1870-1968 | failing input for a local that is loaded without having been stored, in bytes: the call of the fused segment answers 7, that of the assembled one 0, whatever their arrays hold |
| FusionOpcodes.LoadedBaseOpcodes | svm/vm.c:1621-1632 | in every loaded image the comparison and inline-address opcodes compute what fusion relies on |
| FusionOpcodes.ShortForms | svm/vm.c:1577-1612 | LoadParam0-3, LoadLocal0-7 and StoreLocal0-7 decode to the indexed forms with their operand |
| FusionOpcodes.DataInline | svm/vm.c:2058-2060 | LoadDataInlineField decodes to the constant that LoadDataAddr and the inline offset add up to |
| FusionOpcodes.NearFar | svm/vm.c:1792-1968 | a near and a far branch to the same place decode alike |
| FusionOpcodes.FieldForms | svm/vm.c:1977-2045 | the U1, U2 and U4 forms of a field access decode alike when they hold the same offset |
| Scode.DecodedIsSmall | svm/vm.c:1543-2325 | every decoded instruction needs at most four operands, pushes at most six cells, returns at most two, and is followed by a later address |
| Opcodes.Literals | svm/vm.c:1543-1566 | opcodes 0 to 19 push these numbers and cells, 236 pushes nothing, and only the operand area, sp and cp change |
| Opcodes.CodeLiterals | svm/vm.c:1563-1570 | 20 to 27, 162, 210 and 218 to 220 push words of the code segment and addresses of blocks and static data |
| Opcodes.Variables | svm/vm.c:1577-1614 | 29 to 56 copy between the top and the cells at pp and lp plus the index |
| Opcodes.IntCompares | svm/vm.c:1621-1628 | 57 to 62, 129 and 130 leave 1 or 0 for ==, !=, >, >=, <, <= of the two words |
| Opcodes.ZeroTests | svm/vm.c:1750-1751 | 131 and 132 test for zero and non-zero |
| Opcodes.IntMath | svm/vm.c:1631-1644 | 63, 66, 67, 71, 72, 75 and 76 leave product, sum, difference, complement, negation and neighbours, cut to 32 bits |
| Opcodes.Division | svm/vm.c:1632-1633 | 64 and 65 leave quotient and remainder rounded towards zero; exactly division by zero and -2^31 / -1 have none |
| Opcodes.Shifts | svm/vm.c:1641-1642 | 73 and 74 multiply by and divide by 2^n, rounding down; exactly counts outside 0 to 31 are undefined |
| Opcodes.IntBits | svm/vm.c:1636-1638 | 68 to 70: every bit of the result is the or, the difference or the and of the bits of both words |
| LongOpcodes.LongCompares | svm/vm.c:1651-1656 | 77 to 82 compare 64-bit values of two cells each |
| LongOpcodes.LongMath | svm/vm.c:1659-1668 | 83, 86, 87, 91 and 92 leave product, sum, difference, complement and negation, cut to 64 bits, low cell first |
| LongOpcodes.LongDivision | svm/vm.c:1660-1661 | 84 and 85, with exactly the two undefined cases |
| LongOpcodes.LongShifts | svm/vm.c:1669-1670 | 93 and 94 shift a 64-bit value by an int, undefined outside 0 to 63 |
| LongOpcodes.LongBits | svm/vm.c:1664-1666 | 88 to 90 bit by bit on 64 bits |
| LongOpcodes.Conversions | svm/vm.c:1757-1761 | 118 fills the high cell with the sign, 120 keeps the low cell |
| LongOpcodes.FloatMath | svm/vm.c:1675-1736 | 95 to 116 give the float unit the opcode and two, one or four cells and leave as many as it answers |
| LongOpcodes.FloatConversions | svm/vm.c:1758-1771 | so do 117, 119 and 121 to 128 |
| MemoryOpcodes.FieldLoads | svm/vm.c:1977-2029 | the field loads of 163 to 201: address plus offset of one, two or four bytes, 1, 2, 4 or 8 heap bytes, zero-extended, low one first |
| MemoryOpcodes.ElementLoads | svm/vm.c:1980-2033 | the element loads and element addresses: address plus width times index |
| MemoryOpcodes.FieldStores | svm/vm.c:1984-2044 | the field stores write the low bytes of the value there and no other byte |
| MemoryOpcodes.ElementStores | svm/vm.c:1987-2045 | so do the element stores |
| MemoryOpcodes.ConstLoads | svm/vm.c:2036-2038 | 208, 209 and 211 read a block number and push the address of the block, or null for 0 |
| MemoryOpcodes.InlineLoads | svm/vm.c:2048-2050 | 212 to 214 add an offset to an address |
| MemoryOpcodes.Initialisers | svm/vm.c:2248-2264 | 230 to 232 lay the reference table and write the vtable and type half-words |
| ControlOpcodes.Tests | svm/vm.c:1520-1527 | opcode by opcode, which cell is tested for null: null ends the call with 100, otherwise a full stack with 101 |
| ControlOpcodes.UnknownOpcodes | svm/vm.c:2318-2335 | 28, 233 and all opcodes from 237 on end the call with 11 |
| ControlOpcodes.StackOpcodes | svm/vm.c:1777-1786 | 133 to 141 leave these cells in this order |
| ControlOpcodes.Jumps | svm/vm.c:1792-1849 | 142 to 144 and 146 to 148 go to cp plus a signed one- or two-byte offset, or on |
| ControlOpcodes.CompareJumps | svm/vm.c:1870-1968 | 150 to 161 do so on the six comparisons |
| ControlOpcodes.Foreaches | svm/vm.c:1812-1864 | 145 and 149 count up and leave at the length, or push array and counter |
| ControlOpcodes.Switching | svm/vm.c:2287-2305 | 235 goes by the entry of its table that the operand selects, or behind the table |
| ControlOpcodes.Asserting | svm/vm.c:2266-2285 | 234 counts a failure for 0, else a success |
| ControlOpcodes.CallIs | svm/vm.c:2070-2091 | 221 saves return address, fp and method and starts the method of the block with its header's parameters and locals |
| ControlOpcodes.Param0CallIs | svm/vm.c:2066-2091 | 229 pushes parameter 0 first |
| ControlOpcodes.VirtualCallIs | svm/vm.c:2094-2110 | 222 finds the block in the vtable that the first half-word of the object names |
| ControlOpcodes.Param0Inlines | svm/vm.c:2053-2055 | 215 to 217 push parameter 0 plus an offset |
| ControlOpcodes.NativeCalls | svm/vm.c:2112-2155 | 223 to 225 call the native of kit and id on the last operands with vm->sp at sp; a missing one ends the call with 12 |
| ControlOpcodes.NativeAnswers | svm/vm.c:2122-2154 | nothing, the int, or both cells low one first take the place of the operands |
| ControlOpcodes.Returns | svm/vm.c:2157-2242 | 226 to 228 hand the host the cell below, the int or 0, or restore the caller's registers with the result in place of the parameters |
| Answers.IntMathAnswers | svm/vm.c:1631-1637 | **main**: vmCall of the bytes 2 0 29 30 op 227 answers x * z, x + z or x - z in 32 bits for op 63, 66, 67, for all arguments, array contents and places of the code |
| Answers.IntDivisionAnswers | svm/vm.c:1632-1633 | and for 64 and 65 quotient and remainder, undefined exactly for the two cases |
| Answers.IntShiftAnswers | svm/vm.c:1641-1642 | and for 73 and 74 the shifts |
| Answers.IntCompareAnswers | svm/vm.c:1621-1628 | and for 57 to 62, 129 and 130 the comparisons |
| Answers.IntBitAnswers | svm/vm.c:1636-1638 | and for 68 to 70 or, xor and and, bit by bit |
| Answers.IntUnaryAnswers | svm/vm.c:1639-1644 | 1 0 29 op 227 for complement, negation, increment and decrement |
| Answers.ZeroTestAnswers | svm/vm.c:1750-1751 | and for the tests for zero |
| Answers.LongMathAnswers | svm/vm.c:1659-1663 | both cells of the 64-bit product, sum and difference, stored and read back by the method |
| Answers.LongDivisionAnswers | svm/vm.c:1660-1661 | both cells of quotient and remainder |
| Answers.LongBitAnswers | svm/vm.c:1664-1666 | both cells of or, xor and and, bit by bit |
| Answers.LongCompareAnswers | svm/vm.c:1651-1656 | the six comparisons of 64-bit values |
| Answers.LongUnaryAnswers | svm/vm.c:1667-1668 | both cells of complement and negation |
| Answers.LongShiftAnswers | svm/vm.c:1669-1670 | both cells of the shifts |
| Answers.IntToLongAnswers | svm/vm.c:1757-1761 | narrowing keeps the low cell, widening fills the high one with its sign |
| Answers.WrongCount | svm/vm.c:1494 | a call with another number of arguments than the method's header counts answers the error 102 |
| Image.PerformFlows | svm/vm.c:1792-1968 | an operand-only instruction goes only to its listed targets, pushing the listed number of cells |
| Alu.LongOfHalves | svm/vm.c:1659-1673 | two cells hold a 64-bit value |
| Alu.HalvesOfLong | svm/vm.c:1659-1673 | and every pair of cells is one |
| AluLaws.Opposites | svm/vm.c:1621-1629 | the six comparisons are three pairs of opposites, and exactly one order holds |
| AluLaws.SubUndoesAdd | svm/vm.c:1635-1636 | subtraction undoes addition through every wrap-around |
| AluLaws.DivMod | svm/vm.c:1632-1633 | quotient and remainder belong together and round towards zero; exactly division by zero and -2^31 / -1 have no result |
| AluLaws.NegIsNotPlusOne | svm/vm.c:1640-1641 | negation is complement plus one |
| AluLaws.WidenNarrow | svm/vm.c:1757-1761 | int to long keeps the value and long to int undoes it |
| AluLaws.ShiftBack | svm/vm.c:1642-1643 | a left shift multiplies by a power of two and a right shift undoes it |
| AluLaws.StoreThenLoad | svm/vm.c:1977-2020 | what a narrow or word field store leaves, the load of that width finds, cut to it |
| AluLaws.WideStoreThenLoad | svm/vm.c:2004-2020 | and a wide value comes back in both cells |
| Shuffles.MovedIsShuffle | svm/vm.c:1777-1782 | the cell moves of a Dup opcode are the shuffle that the machines apply |
| Shuffles.Dup | svm/vm.c:1777-1777 | the in-place moves of Dup |
| Shuffles.Dup2 | svm/vm.c:1778-1778 | the in-place moves of Dup2 |
| Shuffles.DupDown2 | svm/vm.c:1779-1779 | the in-place moves of DupDown2 |
| Shuffles.DupDown3 | svm/vm.c:1780-1780 | the in-place moves of DupDown3 |
| Shuffles.Dup2Down2 | svm/vm.c:1781-1781 | the in-place moves of Dup2Down2 |
| Shuffles.Dup2Down3 | svm/vm.c:1782-1782 | the in-place moves of Dup2Down3 |
| InlineArrays.TableFilled | svm/vm.c:345-353 | slot j of an initialised array holds the address of object j, the objects lying behind the table |
| InlineArrays.TableFrame | svm/vm.c:345-353 | and no byte outside the table changes |
| Slots.SetGet | svm/vm.c:365-430 | a field stored with a width reads back modulo that width |
| Slots.SetOutside | svm/vm.c:365-430 | and no other byte changes |
| Slots.Memory.DoSetInt | natives/sys_Component.c:172-199 | doSetInt stores the value cut to the slot's width and reports a change exactly if the old reading differs from the uncut value; getInt then reads the value if and only if it fits |
| Slots.ByteCut | natives/sys_Component.c:172-199 | failing input: a byte slot set to 256 reads back 0 |
| Natives.InvokeRuns | natives/sys_Component.c:297-432 | a component invoke evaluates the action method of the vtable once, on the component and the value, and returns 0 whatever it returned; on a slot of another type it evaluates nothing and returns 0 |
| Natives.InvokeDeaf | natives/sys_Component.c:303-318 | it never looks at what the action returned |
| Natives.SlotBytes | svm/sedona.h:447-448 | which bytes of a slot hold its type's id and its handle |
| Natives.DoMainRunsTests | natives/sys_Test.c:12-46 | doMain evaluates the methods in table order, each in the world its predecessor left, going on after errors, and answers the failure counter after the last one; without a table, or with an empty one, it answers -1 |
| Natives.DoMainDeaf | natives/sys_Test.c:33-41 | nor does doMain look at what a test returned |
| Natives.TableBytes | natives/sys_Test.c:15-41 | which bytes of the image name the test table, its length and its methods |
| Natives.InvokeMoves | natives/sys_Component.c:297-432 | invoke does the same on a relocated image, by way of the rewritten vtable entry |
| Natives.DoMainMoves | natives/sys_Test.c:33-41 | so does doMain, when the test table is rewritten like a vtable |
| Natives.TestsRunOut | natives/sys_Test.c:33-41 | **main**: k tests that each call a native raise vm->sp by 3k or more, so they can all end only if vm->sp + 3k is still inside the stack |
| TestLeak.TestWellFormed | natives/sys_Test.c:12-46 | for every k the bytes of a test runner with k tests, each calling a native, load to a well-formed image |
| TestLeak.TestsLeak | natives/sys_Test.c:33-41 | **main**, failing input: its vmCall answers the failure count and leaves vm->sp exactly 3k + 3 cells higher if vm->sp + 3k + 4 cells fit, and goes astray on every smaller stack |
| Sha1Spec.PadBlocks | natives/inet_sha1.c:364-394 | padding adds one block, or two exactly when more than 55 bytes of the last one are used |
| Sha1Spec.PadInjective | natives/inet_sha1.c:396-408 | padding is injective on messages below 2^64 bits |
| Sha1Spec.AbsorbBlock | natives/inet_sha1.c:331-337 | absorbing one more block is compressing it into the hash |
| Sha1Context.Context.Reset | natives/inet_sha1.c:84-105 | a reset context holds the empty message |
| Sha1Context.Context.Expand | natives/inet_sha1.c:267-281 | W is the message schedule of RFC 3174 |
| Sha1Context.Context.ProcessBlock | natives/inet_sha1.c:254-338 | the block is compressed into the hash and the index is 0 |
| Sha1Context.Context.AddByte | natives/inet_sha1.c:207-229 | between bytes: buffer is the unprocessed tail, hash the fold over complete blocks, length words 8 times the byte count |
| Sha1Context.Context.CountByte | natives/inet_sha1.c:212-221 | the two-word count goes up by 8, and Corrupted is set exactly when it reaches 2^64 |
| Sha1Context.Context.PadMessage | natives/inet_sha1.c:364-409 | the hash becomes the fold over the padded message of section 4 of RFC 3174 |
| Sha1Context.Context.Input | natives/inet_sha1.c:183-232 | a chunk extends the message; after Result it poisons the context; an overlong message poisons it too; codes as the source returns them |
| Sha1Context.Context.WriteDigest | natives/inet_sha1.c:154-158 | twenty bytes become the digest, the rest of the buffer stays |
| Sha1Context.Context.Result | natives/inet_sha1.c:126-161 | an open context yields the message's digest and is done; a done one yields it again; a poisoned one only its code |
| Sha1Protocol.ChunkingDoesNotMatter | natives/inet_sha1.c:183-232 | every way to cut a message ends in the same context, poisoned exactly when 2^64 bits are reached |
| Sha1Protocol.PoisonStays | natives/inet_sha1.c:136-139 | a poisoned context stays poisoned with the same code until Reset |
| Sha1Protocol.AfterDone | natives/inet_sha1.c:197-201 | after Result the digest stays available until the first non-empty Input, which poisons for good |
| Sha1Protocol.HashChunks | natives/inet_sha1.c:84-161 | **main**: streaming equals one-shot: Reset, Inputs and Result give the SHA-1 of the whole message |
| Sha1Protocol.CryptoSha1 | natives/inet_Crypto_sha1.c:20-37 | the native writes the digest of the input range and no other byte of the output |
| Sha1Laws.ChooseLaw | natives/inet_sha1.c:289-298 | rounds 0 to 19 take c where b is 1 and d where it is 0 |
| Sha1Laws.ParityLaw | natives/inet_sha1.c:300-308 | rounds 20 to 39 and 60 to 79 take d where b and c agree and its opposite where they differ |
| Sha1Laws.MajorityLaw | natives/inet_sha1.c:311-319 | rounds 40 to 59 take what two of the three agree on |
| Sha1Laws.RotateOne | natives/inet_sha1.c:62-63 | rotation by 1 moves every bit up by one, the top one to the bottom |
| Sha1Laws.RotateFive | natives/inet_sha1.c:62-63 | the same by 5 |
| Sha1Laws.RotateThirty | natives/inet_sha1.c:62-63 | the same by 30 |
| Sha1Laws.ConstantsLaw | natives/inet_sha1.c:256-261 | the constants are the integer parts of 2^30 times the roots of 2, 3, 5 and 10 |
| Sha1Laws.InitialLaw | natives/inet_sha1.c:95-99 | the initial words, and which are complements of each other |
| Sha1Vector.AbcDigest | natives/inet_sha1.c:254-338 | **main**: the digest of "abc" is the published one of section 7.3 of RFC 3174, through all 80 words and rounds |
| ModifiedUtf8.EncodedSize | jdwp/packetHandler.c:600-618 | the size computed beforehand is the number of bytes the encoder writes |
| ModifiedUtf8.DecodeInverts | jdwp/packetHandler.c:637-661 | the lead-byte decoder of section 4.4.7 of the Java Virtual Machine Specification gives every NUL-free string back |
| ModifiedUtf8.LeadBits | jdwp/packetHandler.c:637-661 | lead bytes are told apart by their top bits |
| ModifiedUtf8.ReadAnswers | jdwp/packetHandler.c:684-732 | read_utf's loop reads an encoded string to its last byte and no further, a three-byte unit as two units |
| ModifiedUtf8.ReadInvertsExactly | jdwp/packetHandler.c:693-729 | **main**: it gives the string back if and only if every unit is at most 0x7FF |
| ModifiedUtf8.ReadBreaksEuro | jdwp/packetHandler.c:701-711 | the euro sign comes back as two units |
| Packets.ScriptRoundTrip | jdwp/packetHandler.c:257-271 | **main**: every script of typed writes, read back with the same kinds, returns its values and uses up its bytes |
| Packets.ItemRoundTrip | jdwp/packetHandler.c:227-241 | a big-endian item reads back as the value written |
| Packets.KindWidths | jdwp/packetHandler.c:481-563 | tags take one byte, method and field ids two, all other ids four |
| Packets.Packet.EnsureCap | jdwp/packetHandler.c:131-141 | room for the write; growth to mbytes plus twice the length exactly when the write would reach the end; earlier bytes kept |
| Packets.Packet.WriteU1 | jdwp/packetHandler.c:417-420 | one byte is appended, earlier bytes kept |
| Packets.Packet.WriteU2 | jdwp/packetHandler.c:422-426 | two bytes, high byte first |
| Packets.Packet.WriteU4 | jdwp/packetHandler.c:428-434 | four bytes, high byte first |
| Packets.Packet.WriteItem | jdwp/packetHandler.c:481-563 | tags and ids go out with their configured widths |
| Packets.Packet.WriteScript | jdwp/packetHandler.c:417-563 | a script of writes appends its encoding across every growth |
| Packets.Packet.ReadItem | jdwp/packetHandler.c:306-388 | a typed read decodes the bytes under the cursor and moves it by the width |
| Packets.Packet.ReadScript | jdwp/packetHandler.c:257-388 | a script of reads decodes the bytes from the cursor on |
| Packets.Packet.WriteUtf | jdwp/packetHandler.c:637-661 | a string goes out as its byte count and its modified UTF-8 |
| Packets.Packet.WriteStr | jdwp/packetHandler.c:573-590 | a string goes out as its number of bytes and two bytes for every character |
| Packets.Packet.ReadUtf | jdwp/packetHandler.c:684-732 | read_utf returns what its loop makes of the bytes and stops behind them |
| Packets.DoublingEnds | jdwp/packetHandler.c:818-825 | write_packet's doubling loop ends if and only if the buffer is not empty |
| Packets.Packet.WritePacket | jdwp/packetHandler.c:813-828 | the other packet's bytes are appended |
| Packets.Packet.WriteList | jdwp/packetHandler.c:830-841 | the packets of a list are appended in list order |
| Packets.PacketList.Add | jdwp/packetHandler.c:785-793 | a packet becomes the head of the list |
| Packets.PacketList.ByteSize | jdwp/packetHandler.c:795-811 | the sum of the packets' written bytes |
| Packets.NewReply | jdwp/packetHandler.c:750-759 | a reply carries the request's id, the reply flag and error code 0, cursor behind the header |
| Packets.NewCommand | jdwp/packetHandler.c:761-772 | a command carries its id, flag 0, command set and command |
| Packets.Send | jdwp/mainHandler.c:2386-2398 | the length field is the number of bytes sent |
| RefTypes.RefType.PacketSize | jdwp/refTypHandler.c:202-202 | the size computed before writing is the size of the entry |
| RefTypes.RefType.ToPacket | jdwp/refTypHandler.c:202-207 | the entry is written and ends exactly at that size |
| RefTypes.Registry.Add | jdwp/refTypHandler.c:391-399 | a class gets the next id, and registration order is kept |
| RefTypes.Registry.ToPacketList | jdwp/refTypHandler.c:193-216 | two list reversals cancel: the list is in registration order |
| RefTypes.Registry.AllClasses | jdwp/mainHandler.c:254-262 | the reply ends exactly at its pre-computed size and holds count and classes |
| RefTypes.ClassesRoundTrip | jdwp/refTypHandler.c:201-213 | the entries decode to the classes, each once |
| RefTypes.Registry.SendAllClasses | jdwp/mainHandler.c:254-264 | **main**: what goes out decodes to every registered class in registration order, with the right length, id and count |
| RefTypes.Members.Add | jdwp/refTypHandler.c:117-143 | a field or method is appended across growth, exactly until the array holds 65534; where the source would store behind the array, nothing is stored |
| RefTypes.GrowsExactly | jdwp/refTypHandler.c:118-126 | a full array grows if and only if it has at most 32766 entries |
| RefTypes.Capacities | jdwp/refTypHandler.c:131-143 | from empty, the k-th capacity is 2^(k+1)-2 and the fifteenth growth, to 65534, is the last |
| RefTypes.StoresExactly | jdwp/refTypHandler.c:117-143 | an array grown from empty takes another entry if and only if it holds fewer than 65534 |
| RefTypes.MemberBytes | jdwp/refTypHandler.c:284-327 | a field or method goes out as id, name, signature and modifiers and ends exactly at the size computed before |
| RefTypes.MemberRoundTrip | jdwp/refTypHandler.c:284-327 | and those bytes decode to it |
| EventQueue.EveryRun | jdwp/eventDispatcher.c:306-335 | **main**: over every interleaving of adding and dispatching: at most one composite per request, its own policy, oldest first, and added = pending + muted + dispatched |
| EventQueue.DispatchAllReports | jdwp/eventDispatcher.c:511-523 | a dispatch sends one composite per policy 0, 1, 2 with the reports of the requests ready before it, leaves none of them pending and touches no other |
| EventQueue.ReportsExactly | jdwp/eventDispatcher.c:317-332 | a policy's reports are exactly its ready requests with a non-empty encoding, in order of arrival |
| EventQueue.StuckForever | jdwp/eventDispatcher.c:318-320 | a muted request, or a pending one of another policy, stays through every run |
| EventQueue.PendingAfterDispatch | jdwp/eventDispatcher.c:363-370 | after a dispatch the machine is suspended again only for requests of a policy that is never collected |
| Events.Dispatcher.NewEvent | jdwp/eventDispatcher.c:375-381 | a request gets the next id, not removed, triggered unless muted |
| Events.Dispatcher.AddEvent | jdwp/eventDispatcher.c:383-401 | the request becomes the head of the list, the last arrival; a request for the start of the thread is remembered |
| Events.Dispatcher.CheckForEvents | jdwp/eventDispatcher.c:350-372 | suspends if and only if some request is pending |
| Events.DispatchOne | jdwp/eventDispatcher.c:318-329 | a ready request is encoded, flagged and listed unless it encodes to nothing |
| Events.Dispatcher.GetBySuspendPolicy | jdwp/eventDispatcher.c:306-335 | one walk collects the policy's reports oldest first and consumes exactly those requests |
| Events.Dispatcher.NewComposite | jdwp/eventDispatcher.c:493-501 | a composite is a command with the next id, flag 0, command set 64, command 100, then policy, event count and events |
| Events.Dispatcher.InternalDispatchSet | jdwp/eventDispatcher.c:488-508 | one composite goes out, none for an empty list; every packet on the wire holds its length, its id, numbered from 1, flag 0, command set 64, command 100, policy, number of events and events |
| Events.Dispatcher.DispatchAll | jdwp/eventDispatcher.c:511-523 | **main**: the in-place dispatch is the dispatch step of the state machine, and what is on the wire decodes byte by byte to its composites in order |
| Handshake.Transparent | svm/vm.c:631-639 | debugging is transparent: under every interleaving with the debugger's thread, erasing all but the executed instructions leaves exactly a run of vmCall |
| Handshake.NeverStuck | svm/vm.c:631-639 | **main**: with the debugger quiet and events not held, the debug build reaches whatever vmCall reaches |
| Handshake.PollEnds | svm/vm.c:631-639 | then each poll ends with counter 0, and a request of policy 0, 1 or 2 is still pending exactly if the counter stood at 255 and one was pending |
| Handshake.PolledFirst | svm/vm.c:613-639 | **main**: with the counter below 255, an instruction that passes the null and overflow tests, by its opcode number, runs only after a poll: the machine is untouched until no request of policy 0, 1 or 2 is pending, and those that were have been sent |
| Handshake.NotPolled | svm/vm.c:613-621 | one that fails a test leaves the call with 100 or 101 without a poll |
| Handshake.NativesNotPolled | svm/vm.c:613-639 | natives act without a poll |
| Handshake.WrapSkips | svm/vm.c:631-639 | failing input: counter 255 and one breakpoint pending |
| Handshake.LoopEnds | svm/vm.c:632-639 | the waiting loop takes four moves per suspension |
| Handshake.ResumeExact | svm/vm.c:194-197 | resume works as guarded if and only if the machine is suspended; otherwise the counter becomes 255 |
| Handshake.QueueKept | jdwp/eventDispatcher.c:350-372 | the queue's invariant survives every interleaving of both threads |
| VmController.Controller.Suspend | svm/vm.c:184-186 | the u1 counter goes up by one and wraps |
| VmController.Controller.Resume | svm/vm.c:194-198 | the u1 counter goes down by one and wraps |
| VmController.Controller.Poll | svm/vm.c:631-639 | the poll loop in place ends with counter 0 and the same exact condition |
| Text.SplitLine | jdwp/fileManager.c:89-110 | the loop over counted separators yields the parts of the string |
| Text.CountChar | jdwp/fileManager.c:76-87 | the number of occurrences |
| Text.IndexOf | jdwp/fileManager.c:119-126 | the first occurrence, or -1 |
| Text.SplitJoin | jdwp/fileManager.c:89-110 | splitting a joined list gives back items without separator |
| Text.JoinSplit | jdwp/fileManager.c:89-110 | joining the parts of any string gives back the string |
| Text.CastToInt | jdwp/fileManager.c:51-60 | the accumulated value in 32 bits |
| Text.DecimalExact | jdwp/fileManager.c:51-60 | a printed number is read back modulo 2^32 |
| Jbase.ParsePrint | jdwp/initializer.c:187-312 | **main**: printing any well-formed record and parsing the line gives its kind, name, modifiers, fields and methods, its known interfaces and its superclass pointer, with the cursor at the trailing empty item, if and only if no more than 65534 fields, methods and known interfaces have to be stored |
| Jbase.PrintedType | jdwp/initializer.c:205-311 | part by part: tag 1 or 2; the superclass is the printed name if and only if it is known and not java.lang.Object, null if and only if it is neither, else never set; members in order and numbered; the interfaces are the known ones |
| Jbase.ReadInterfaces | jdwp/initializer.c:238-256 | the counted interface names are read and the known ones stored in order, as long as their array takes them |
| Jbase.ReadMembers | jdwp/initializer.c:258-282 | the counted members are read, numbered by position and stored, as long as their array takes them |
| Jbase.ProgressLine | jdwp/initializer.c:187-312 | the parser with its moving cursor computes the line's type, or stops where the source would read a missing item or store behind an array |
| Ticks.ReadExact | natives/sys_Sys_win32.c:64-69 | one call counts the elapsed time if and only if less than one roll-over passed |
| Ticks.TotalsExact | natives/sys_Sys_win32.c:36-76 | **main**: all results are the true time minus one constant if and only if successive calls are less than 2^32 ms apart |
| Ticks.PeriodLost | natives/sys_Sys_win32.c:64-69 | failing input: two calls one roll-over apart give the same result |
| Ticks.FromStart | natives/sys_Sys_win32.c:40-42 | the same from the first call on, and which constant |
| Ticks.Monotone | natives/sys_Sys_win32.c:64-69 | hence the results never run backwards |
| Ticks.TickSource.ReadTicks | natives/sys_Sys_win32.c:36-76 | the static counter in place, and when its nanoseconds are exact |

## Left out

- SedonaVm.Vm.Call: runs are cut off after a number of steps, because programs need not end; every statement is for all such numbers.
- VmCall.CallIsEval: a run in which the heap's vtable, or a native, names a method that the typing does not allow at that point is outside the statement; the heap is data the running program writes. Code that loads a local it never stored is covered by VmCall.CallOnCells only, where the evaluator is told what the local holds.
- StackEnd.RunMatches: what C does after a store behind the last cell is undefined; the run ends there.
- Staleness.RunSame: definite assignment is asked on every path of the code, so it is sufficient for a run and not necessary; the exact statement is the one about a single load (Staleness.LoadExact).
- Fusion.RunExpands: both runs of frames find the same stale cells; FusionCalls.VmCallExpands is the statement for cell arrays.
- Assembler.AssembledCall: vtables, constants and all other data stay where they are, because objects and cells hold their addresses; a virtual call whose object does not name one of the vtables, and a null at a fused inline load, are outside the statement. That natives of the assembled image call back the moved methods is assumed; Natives.InvokeMoves and Natives.DoMainMoves show it for those that do.
- StackEnd.SpareRun: 1024 spare cells are enough, not the least number.
- Packets.Packet.WritePacket: asks for a non-empty buffer, because the source never ends on an empty one (Packets.DoublingEnds).
- Events.Dispatcher.InternalDispatchSet: other commands draw ids from the same counter; here composites are the only ones.
- Opcodes.Literals: the statements about opcodes ask for a frame's three cells below the operands and two cells above, so that no limit is near; StackEnd.AstrayExactly says what happens at the limits.
- Events.InternalDispatch: the bytes of an event are a parameter, because they depend on threads, locations and classes outside this model; requests with more than one modifier are not part of it.
- Natives.InvokeRuns: what the access error prints is not modelled, and a slot outside the code image reads as zeros.
- Floating-point opcodes and casts are uninterpreted functions of their operands; operations that C leaves undefined (division by zero, shifts by the word size or more) end the run in a fault.
- Concrete heap layout, malloc and free; a realloc or malloc that fails.
- Big-endian builds, builds without `SCODE_DEBUG`, computed gotos, block sizes and pointer sizes other than four bytes for the frame words; `block2addr` of the Windows build is not part of this model.
- The assert callback and all printing; the events pushed by the null-pointer and overflow handlers.
- Null pointers passed to the SHA-1 functions.
- Sockets, thread start-up, files, the JDWP handshake and receive loop, and the command handlers other than AllClasses.
- `read_u8`, locations and `read_str`: the first shifts past its width, the last uses another character size than `write_str`.
- The output buffer of `read_utf` and its three-byte branch's buffer overruns.
- `internal_remove` and the functions built on it, `dispatch_thread_start`, direct `dispatchEvent`: they lose the list or act outside the mutex.
- The sends of `dispatchAll` happen after the mutex is released; as they touch only lists of their own, they are modelled with the collection as one step.
- The suspend counter's `++` and `--` are atomic in the model.
- Class signatures built by `mk_class_sign`, lookup by signature, `allClassesRefsWithGenerics`, and the method and field replies around the entries of RefTypes.MemberBytes; classes whose signature was never set.
- Registering one class object twice.
- The frame table (`add_frame`, `remove_frame`) is unfinished in the source.
- The remaining typed slot accessors have the shape of `getInt` and `doSetInt`.
