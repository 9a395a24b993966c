# Verified model of the PLC toolchain's core

This project models the parts of the Structured Text toolchain where a mistake is hard to see and
costly, and proves what they promise:

- **Compiler** (`Names`, `Ir`, `Ast`, `StSemantics`, `Vm`, `Runs`, `CodeGen`, `CodeShape`, `CodeRuns`,
  `CodeCorrect`, `SourceMaps`, `Pou`, `Initializers`, `FunctionCompiler`, `IntWidths`, `VmArith`, `Residues`,
  `ForLoops`, `Compiled`, `Operators`). The source language has a fuel-indexed interpreter over names; the machine is a step function over registers and slots. `CodeGen` gives the
  emitted code as functions, `FunctionCompiler` is the object that emits it, and the main theorems say
  that a compiled body stops exactly when its statements terminate, in the state they describe.
  The theorems hold for any operator semantics the instructions implement; `VmArith` supplies the
  concrete one with integer widths and wrap-around, `ForLoops` says when FOR loops end under it, and
  `Compiled` joins the two: what the compiled code does with the concrete operators. `Operators` says what
  each operator of the language means in numbers and truth values, interpreted and compiled.
- **Class layout** (`ClassLayout`): inherited fields, method lookup, and method calls on instances.
- **Modbus RTU** (`Bytes`, `Lfsr`, `Crc`, `CrcDetection`, `Framing`, `SerialTransport`, `RtuParser`, `Upp`,
  `RtuFrame`, `FrameExamples`, `RtuClient`, `Profile`, `Batching`, `FieldIo`, `Wire`, `HonestSlave`, `WritingSlave`). `Lfsr` proves the facts about shift registers once,
  over any register type; `CrcDetection` applies them to the 16-bit register. `Framing` says what the
  receive loop returns for any byte stream, any way reads split it and any clock; the transport object
  is proved to compute that. `Batching` compares runs of registers with one transaction per register,
  `FieldIo` says field by field which cells a profile reads and writes;
  `HonestSlave` and `WritingSlave` replace its device by one that answers the frames the client builds.
- **State that survives change** (`OnlineChange`, `ChangeAcceptance`, `ChangeRuns`, `ChangeRanges`, `ChangeRefs`, `Retain`, `Restart`):
  compatibility analysis, migration by name, integer ranges, references, capture and restore, over whole runs.
- **Step machines** (`BusLoop`, `DapSession`): the bus thread's fairness, the debug server's request
  bookkeeping.
- **Two small pieces** (`Calendar`, `Breakpoints`): date literals, breakpoint lines.

`dafny verify dfyconfig.toml` checks everything.

Where the code differs from its own documentation or from IEC 61131-3, the model follows the code: FOR
tests `<=` only and evaluates bound and step again on every pass; the FOR variable is stored only when
it is a local; AND and OR evaluate both sides; RETURN yields 0; EXIT outside a loop emits nothing. The
following properties are false of the code as one would first state them, and are proved in their exact
form: chunk independence of the UPP parser (`Upp.IndependentIffNotLate`), coil and register round trips
(`RtuFrame.CoilRoundTrip`, `RtuFrame.RegisterRoundTrip`), batched transactions against
single ones (`HonestSlave.BatchIsSingleIffShort`, `WritingSlave.BatchWriteIsSingleIffShort`), survival of
locals, of the data of composite variables, of integer ranges and of the targets of references across an
online change (`ChangeRuns.ChangeKeepsLocal`, `ChangeRuns.PartKeptIffUnmoved`, `ChangeRanges.RangesKeptIff`,
`ChangeRefs.LocalRefKeptIff`), initial values after a restore (`Restart.UnflaggedStartsInitialIff`), dates
before year 1 (`Calendar.EpochMsIsDayCount`), the order of large unsigned integers (`VmArith.OrderIsNumeric`),
and termination of FOR loops (`ForLoops.CountingLoopEnds`, `ForLoops.UnstoredLoopEnds`) and of the walks over
base classes (`ClassLayout.EndsIffNoRepeat`, `ClassLayout.SearchEndsIff`).

Time is counted in ticks. Names are compared by an ASCII upper-case key, which is what the code's
`eq_ignore_ascii_case` does; `to_uppercase` of the code agrees with it on the ASCII identifiers of the
language. Where plain integer arithmetic of the code overflows, the model takes the release build, which
wraps (NEG of the smallest 64-bit value, register addresses); a checked build would panic there. Integer
division traps in both.

## Model

| member | source | states |
|---|---|---|
| CodeShape.ExprGood | crates/st-compiler/src/compile.rs:1096-1226 | compiling an expression only appends, keeps every operand in range and leaves its value in a register allocated by then |
| CodeShape.StmtsGood | crates/st-compiler/src/compile.rs:781-829 | compiling statements only appends code, allocates registers and labels upwards, places every label it allocates, and leaves all earlier labels and open loops alone |
| CodeShape.CaseGood | crates/st-compiler/src/compile.rs:969-1013 | the same for CASE with its three kinds of labels |
| CodeShape.ForGood | crates/st-compiler/src/compile.rs:1015-1057 | the same for FOR |
| CodeRuns.RunExpr | crates/st-compiler/src/compile.rs:1096-1226 | the emitted code of an expression computes its value, leaves memory and all older registers alone, and traps exactly when evaluation fails |
| CodeCorrect.SimStmts | crates/st-compiler/src/compile.rs:781-829 | from any registers the code of a statement list reaches the block end, the innermost exit label, a return or a trap, with the variable store direct evaluation gives; with too little fuel it stays in the block for more steps than the fuel |
| CodeCorrect.SimIf | crates/st-compiler/src/compile.rs:942-967 | IF/ELSIF/ELSE runs the first arm whose condition holds |
| CodeCorrect.SimCase | crates/st-compiler/src/compile.rs:969-1013 | CASE runs the first branch one of whose selectors matches, else ELSE |
| CodeCorrect.SimFor | crates/st-compiler/src/compile.rs:1015-1057 | FOR stores its start, then passes while the variable is at most the bound, re-evaluated each time |
| CodeCorrect.SimWhile | crates/st-compiler/src/compile.rs:1059-1074 | WHILE, with EXIT landing behind the loop |
| CodeCorrect.SimRepeat | crates/st-compiler/src/compile.rs:1076-1090 | REPEAT tests after the body |
| SourceMaps.StatementIsMapped | crates/st-compiler/src/compile.rs:541-560 | the first instruction of a statement carries the statement's place in the source, except that a REPEAT starts with its body |
| SourceMaps.ListIsMapped | crates/st-compiler/src/compile.rs:781-829 | and that entry stays, whatever is compiled behind it |
| Pou.PouWellFormed | crates/st-compiler/src/compile.rs:256-363 | every finished body has all labels placed below the instruction count, all operands in range, a source map as long as the code and a return as its last instruction |
| Pou.BodyRuns | crates/st-compiler/src/compile.rs:256-363 | meaning preservation from source to machine for whole bodies, result slot and RETURN value included |
| Pou.StopsAsMeant | crates/st-compiler/src/compile.rs:781-829 | meaning preservation from machine to source: a state in which the compiled body stops is the one the statements describe |
| Pou.HaltsIffTerminates | crates/st-compiler/src/compile.rs:1015-1090 | the compiled body stops if and only if the statements terminate |
| Pou.FunctionResult | crates/st-compiler/src/compile.rs:277-296 | a function that runs to its end returns the variable of its own name |
| Initializers.ReachesBody | crates/st-compiler/src/compile.rs:697-780 | the code in front of a body leaves every declared variable at the value of its initialiser, each evaluated with the variables declared so far in view |
| Initializers.InitsWellFormed | crates/st-compiler/src/compile.rs:370-391 | the synthetic function for global initialisers has operands in range, no labels, and a return at its end |
| Initializers.RunInits | crates/st-compiler/src/compile.rs:370-391 | running it leaves the globals at their initial values in declaration order, narrowed |
| FunctionCompilers.FunctionCompiler.AllocLabel | crates/st-compiler/src/compile.rs:521-530 | the new label and the grown position table |
| FunctionCompilers.FunctionCompiler.PlaceLabel | crates/st-compiler/src/compile.rs:532-539 | the label's position becomes the instruction count, nothing else changes |
| FunctionCompilers.FunctionCompiler.Emit | crates/st-compiler/src/compile.rs:541-551 | one instruction and one source-map entry, consuming the pending source range |
| FunctionCompilers.FunctionCompiler.CompileExpression | crates/st-compiler/src/compile.rs:1096-1226 | the compiler object emits the code specified for the expression |
| FunctionCompilers.FunctionCompiler.CompileStatements | crates/st-compiler/src/compile.rs:781-786 | the compiler object emits the code specified for the statements |
| FunctionCompilers.FunctionCompiler.CompileIf | crates/st-compiler/src/compile.rs:942-967 | likewise for IF |
| FunctionCompilers.FunctionCompiler.CompileCase | crates/st-compiler/src/compile.rs:969-1013 | likewise for CASE |
| FunctionCompilers.FunctionCompiler.CompileFor | crates/st-compiler/src/compile.rs:1015-1057 | likewise for FOR |
| FunctionCompilers.FunctionCompiler.CompileWhile | crates/st-compiler/src/compile.rs:1059-1074 | likewise for WHILE |
| FunctionCompilers.FunctionCompiler.CompileRepeat | crates/st-compiler/src/compile.rs:1076-1090 | likewise for REPEAT |
| FunctionCompilers.CompileItem | crates/st-compiler/src/compile.rs:256-296 | the finished code, register count, source map, body start and layout of a POU are the specified ones, to which the theorems of Pou apply |
| VmArith.AssignmentIsExact | crates/st-engine/src/vm.rs:1379-1470 | storing an expression of +, -, * and negation of any size leaves its exact integer value modulo the variable's width: no 64-bit wrap on the way shows |
| VmArith.OrderIsNumeric | crates/st-engine/src/vm.rs:1379-1470 | the six comparisons of two integers are numeric exactly unless one lies above the signed 64-bit range and the other is at least that value minus 2^64 |
| VmArith.SafeOperand | crates/st-engine/src/vm.rs:1379-1470 | an operand compares right with every non-negative signed value if and only if it is in the signed range itself |
| Operators.ComparisonMeans | crates/st-compiler/src/compile.rs:1183-1210 | each of =, <>, <, >, <=, >= is what it is of the two numbers, unless one of them hides behind the sign bit |
| Operators.ComparisonsMeanIff | crates/st-engine/src/vm.rs:2401-2435 | all six are numeric exactly for pairs that do not |
| Operators.DivisionMeans | crates/st-engine/src/vm.rs:1398-1413 | a / b and a MOD b are quotient q and remainder m with a = b*q + m, the remainder smaller than the divisor and of the sign of a, or both fail: for 0 and for the one quotient outside 64 bits |
| Operators.LogicMeans | crates/st-compiler/src/compile.rs:1183-1226 | AND, OR, XOR and NOT have their truth tables, an integer being true if it is not 0 |
| Operators.RealMeans | crates/st-engine/src/vm.rs:2381-2400 | +, -, * and ** with a REAL are the floating-point unit's, the other operand converted |
| Operators.RealOrderMeans | crates/st-engine/src/vm.rs:2401-2435 | the six comparisons with a REAL |
| Operators.TimeMeans | crates/st-engine/src/vm.rs:2381-2400 | sum and difference of two TIMEs are TIMEs, exact when they fit |
| Operators.SelectorMeans | crates/st-compiler/src/compile.rs:969-1013 | a CASE selector matches an equal number, an interval those from its lower to its upper bound |
| Operators.FirstArmRuns | crates/st-compiler/src/compile.rs:942-967 | the first arm with a true condition runs, else ELSE |
| Operators.FirstBranchRuns | crates/st-compiler/src/compile.rs:969-1013 | the first CASE branch with a selector that takes the subject runs, else ELSE |
| Operators.WhileEnds | crates/st-compiler/src/compile.rs:1059-1074 | a WHILE that ends leaves its condition false, unless by EXIT, and does nothing if it was false |
| Operators.RepeatEnds | crates/st-compiler/src/compile.rs:1076-1090 | a REPEAT that ends leaves its condition true, unless by EXIT, and has run its body |
| Operators.ForEnds | crates/st-compiler/src/compile.rs:1015-1057 | a FOR that ends leaves its variable above its bound, unless by EXIT |
| Operators.AssignedValue | crates/st-compiler/src/compile.rs:781-829 | the compiled assignment of any expression leaves its value, narrowed, in the slot, or traps |
| Operators.ComparisonStored | crates/st-compiler/src/compile.rs:1183-1210 | the compiled x := a < b, and the five others, leaves the truth about the numbers in x |
| Operators.DivisionStored | crates/st-compiler/src/compile.rs:1183-1210 | the compiled x := a / b and x := a MOD b |
| Operators.LogicStored | crates/st-compiler/src/compile.rs:1183-1210 | the compiled x := a AND b, OR, XOR |
| Operators.ComparedArmRuns | crates/st-compiler/src/compile.rs:942-967 | the compiled IF on a comparison ends as the arm the numbers select |
| IntWidths.IntegerRanges | crates/st-engine/src/vm.rs:2437-2485 | the ranges of the eight integer types |
| IntWidths.NarrowFits | crates/st-engine/src/vm.rs:2437-2485 | a stored integer fits its slot's width, and one that fits is stored unchanged |
| ForLoops.CountingLoopEnds | crates/st-compiler/src/compile.rs:1015-1057 | a FOR over a local integer of any width, counting by any step k, with a body that ends normally, leaves the variable alone and moves neither bound nor step, ends if and only if the bound is below the largest value of the width that agrees with the start modulo the greatest common divisor of k and the number of values |
| ForLoops.StepOneIsTop | crates/st-compiler/src/compile.rs:1036-1043 | for step 1 that is the largest value of the width |
| ForLoops.EmptyLoopEnds | crates/st-compiler/src/compile.rs:1015-1057 | the same for the whole statement with an empty body and signed literals for start, bound and step |
| ForLoops.EvenStepsRun | crates/st-compiler/src/compile.rs:1036-1043 | FOR x := 0 TO 126 BY 2 over a SINT never ends |
| ForLoops.ResetLoopRuns | crates/st-compiler/src/compile.rs:1015-1057 | why the body matters: FOR x := 0 TO 5 with x := 0 in the body never ends |
| ForLoops.UnstoredLoopEnds | crates/st-compiler/src/compile.rs:1015-1057 | an empty FOR over a variable that is not local, which is never stored, ends if and only if its test is not true at entry or its increment fails |
| Compiled.EmptyLoopHalts | crates/st-compiler/src/compile.rs:1015-1057 | the machine stops on the compiled empty FOR exactly then |
| Compiled.CountingLoopHalts | crates/st-compiler/src/compile.rs:1015-1057 | likewise with a body that ends normally and leaves variable, bound and step alone |
| Compiled.UnstoredLoopHalts | crates/st-compiler/src/compile.rs:1015-1057 | it stops on the compiled empty FOR over a variable that is not local exactly when the test is not true at entry or the increment fails |
| Compiled.AssignmentStores | crates/st-compiler/src/compile.rs:781-829 | the compiled assignment of an expression of +, -, * and negation ends with the exact integer value, fitted to the width, in the slot of its target |
| Names.SameNameIff | crates/st-ir/src/lib.rs:515-564 | names are the same exactly if they are equal up to the case of the 26 letters |
| ClassLayout.EndsIffNoRepeat | crates/st-compiler/src/compile.rs:394-406 | the walk up from a class ends if and only if no class above it comes up twice |
| ClassLayout.CycleNeverEnds | crates/st-compiler/src/compile.rs:394-406 | A EXTENDS B, B EXTENDS A: the walk never ends |
| ClassLayout.CollectInherited | crates/st-compiler/src/compile.rs:394-406 | on every hierarchy the walk up and its reversal give the fields of the base class, root first, as soon as it may take as many steps as there are classes above |
| ClassLayout.AncestorPrefix | crates/st-compiler/src/compile.rs:394-406 | the fields of every ancestor are a prefix of the fields of the class |
| ClassLayout.LayoutOf | crates/st-compiler/src/compile.rs:302-345 | the slot list of a class or method is inherited fields, own fields, own variables |
| ClassLayout.FindMethodInHierarchy | crates/st-compiler/src/compile.rs:653-678 | on every hierarchy the loop does the search from the class upwards, step for step |
| ClassLayout.SearchEndsIff | crates/st-compiler/src/compile.rs:653-678 | the search ends if and only if the walk does or a class on the way has the method |
| ClassLayout.NoneAbove | crates/st-compiler/src/compile.rs:653-678 | none is found only if no class above has one |
| ClassLayout.NothingNearer | crates/st-compiler/src/compile.rs:653-678 | the found entry is a method of a class above, and no nearer class has such a method |
| ClassLayout.InheritedMethodSlots | crates/st-compiler/src/compile.rs:302-358 | an inherited method's slot numbers name the same fields in its own frame and in every descendant's instance |
| ClassLayout.CallKeepsOtherFields | crates/st-engine/src/vm.rs:2100-2136 | a call of an inherited method sees its class's fields, writes back those only and leaves the fields of descendants alone |
| Lfsr.FeedWord | crates/st-comm-modbus/src/crc.rs:8-20 | up to 16 bits fed one by one equal one exclusive-or and as many shifts |
| Lfsr.BurstSeparates | crates/st-comm-modbus/src/crc.rs:8-20 | streams that agree outside 16 places and leave the same register are equal |
| Lfsr.SameIffSyndromeZero | crates/st-comm-modbus/src/crc.rs:8-20 | linearity: two streams leave the same register exactly when their difference leaves zero |
| Lfsr.SeventeenWindow | crates/st-comm-modbus/src/crc.rs:8-20 | within 17 places only the generator pattern is invisible |
| Lfsr.FeedParity | crates/st-comm-modbus/src/crc.rs:8-20 | the register's parity is the start's parity flipped by every one bit fed |
| Crc.Crc16 | crates/st-comm-modbus/src/crc.rs:7-21 | the byte loop returns the halves of the register, low first |
| Crc.VerifyCrc | crates/st-comm-modbus/src/crc.rs:25-32 | true exactly when the frame has at least three bytes and ends in the checksum of the rest |
| CrcDetection.RegisterFeeds | crates/st-comm-modbus/src/crc.rs:9-19 | the byte-wise loop is the bit-wise shift register over the bits in transmission order |
| CrcDetection.AcceptsIsResidueZero | crates/st-comm-modbus/src/crc.rs:25-32 | a frame of at least three bytes is accepted if and only if the register over the whole frame is zero |
| CrcDetection.BurstDetected | crates/st-comm-modbus/src/crc.rs:7-32 | no non-zero corruption within 16 consecutive bits, byte-unaligned ones included, of an accepted frame of any length is accepted |
| CrcDetection.UnnoticedIffSyndromeZero | crates/st-comm-modbus/src/crc.rs:7-32 | exactly which corruptions of an accepted frame are accepted |
| CrcDetection.SeventeenBitWindow | crates/st-comm-modbus/src/crc.rs:7-32 | within 17 consecutive bits exactly the flips of the generator polynomial's pattern are accepted |
| CrcDetection.AcceptedFramesAreEven | crates/st-comm-modbus/src/crc.rs:7-32 | every accepted frame has an even number of one bits |
| CrcDetection.OddFlipsDetected | crates/st-comm-modbus/src/crc.rs:7-32 | any odd number of flipped bits is noticed |
| CrcDetection.ChecksumCompletes | crates/st-comm-modbus/src/crc.rs:7-32 | of all byte pairs exactly the checksum makes non-empty data an accepted frame |
| CrcDetection.LeadingZeroCounts | crates/st-comm-modbus/src/crc.rs:8 | a zero byte in front of any data changes its checksum |
| CrcDetection.ZerosRejected | crates/st-comm-modbus/src/crc.rs:7-32 | no frame of zero bytes is accepted |
| CrcDetection.KnownVector | crates/st-comm-modbus/src/crc.rs:37-44 | the checksum of 01 03 00 00 00 0A is C5 CD |
| Framing.EndsWithVerdict | crates/st-comm-serial/src/transport.rs:346-416 | a decided run ends with the parser's verdict on the bytes received; a timed-out run is past its deadline and short of what the parser asked |
| Framing.ChunkIndependence | crates/st-comm-serial/src/transport.rs:346-416 | for a parser whose verdicts are stable along the stream, all decided runs over the same bytes end alike, whatever the reads, clocks and deadlines |
| SerialTransports.SerialTransport.EnsureReadTimeout | crates/st-comm-serial/src/transport.rs:279-289 | the cached timeout changes only when the system call succeeds |
| SerialTransports.SerialTransport.Send | crates/st-comm-serial/src/transport.rs:164-182 | the request leaves no earlier than the inter-frame gap after the last frame |
| SerialTransports.SerialTransport.ReceiveSome | crates/st-comm-serial/src/transport.rs:194-208 | one read appends the next bytes of the stream and touches nothing else of the buffer |
| SerialTransports.SerialTransport.ReceiveFramed | crates/st-comm-serial/src/transport.rs:346-416 | the loop ends (measure: buffer space, time left) and returns what Receive says, with the received bytes in the buffer |
| SerialTransports.SerialTransport.TransactionFramed | crates/st-comm-serial/src/transport.rs:318-417 | which failures come before sending, when the request is sent, and the outcome, buffer and clock after receiving |
| RtuParser.ReceiveIsIndependent | crates/st-comm-modbus/src/frame_parser.rs:69-135 | with the RTU parser the receive result never depends on how reads split the stream |
| RtuParser.ReceivesAnnounced | crates/st-comm-modbus/src/frame_parser.rs:90-130 | a decided run returns the announced frame, or TooLong when it does not fit; the parser never waits for bytes beyond the frame |
| RtuParser.RejectsStrangers | crates/st-comm-modbus/src/frame_parser.rs:70-104 | a stream that does not answer the request is rejected |
| Upp.IndependentIffNotLate | crates/st-comm-upp/src/frame_parser.rs:40-56 | the UPP result is independent of chunking if and only if the first CR is not between position 64 and the end of the buffer |
| Upp.CarriageReturnEnds | crates/st-comm-upp/src/frame_parser.rs:40-56 | a carriage return ends a frame, a line feed does not |
| Upp.LimitIs64 | crates/st-comm-upp/src/frame_parser.rs:40-56 | without one the 64th byte makes the frame invalid |
| RtuFrame.Seal | crates/st-comm-modbus/src/frame.rs:51-54 | data followed by its checksum |
| RtuFrame.SealedIsAccepted | crates/st-comm-modbus/src/frame.rs:43-138 | every built frame passes verification |
| RtuFrame.BuildReadRequest | crates/st-comm-modbus/src/frame.rs:43-55 | slave, function, big-endian start and count, checksum |
| RtuFrame.BuildWriteMultipleCoils | crates/st-comm-modbus/src/frame.rs:90-116 | header with a 16-bit count and an 8-bit size, coils packed lowest bit first, checksum |
| RtuFrame.ExtractCoils | crates/st-comm-modbus/src/frame.rs:208-219 | the first `count` bits of the data, lowest bit of each byte first |
| RtuFrame.CoilRoundTrip | crates/st-comm-modbus/src/frame.rs:90-116 | reading the announced coils back from the built frame gives the list if and only if it has at most 2040 |
| RtuFrame.BuildWriteMultipleRegisters | crates/st-comm-modbus/src/frame.rs:119-138 | header and big-endian values, checksum |
| RtuFrame.TooManyCoils | crates/st-comm-modbus/src/frame.rs:90-116 | a frame for 2041 coils announces them all and no data |
| RtuFrame.TooManyRegisters | crates/st-comm-modbus/src/frame.rs:119-138 | a frame for 128 registers announces them all and no data |
| RtuFrame.BuildWriteSingleCoil | crates/st-comm-modbus/src/frame.rs:59-72 | address and 16#FF00 or 0, checksum |
| RtuFrame.BuildWriteSingleRegister | crates/st-comm-modbus/src/frame.rs:75-87 | address and value, checksum |
| FrameExamples.ReadRequestBytes | crates/st-comm-modbus/src/frame.rs:43-55 | the request for ten registers from 0, byte for byte |
| FrameExamples.SingleWriteBytes | crates/st-comm-modbus/src/frame.rs:59-87 | the examples of sections 6.5 and 6.6 of the Modbus application protocol |
| FrameExamples.CoilWriteBytes | crates/st-comm-modbus/src/frame.rs:90-116 | the example of section 6.11 |
| FrameExamples.RegisterWriteBytes | crates/st-comm-modbus/src/frame.rs:119-138 | the example of section 6.12 |
| FrameExamples.ReplyData | crates/st-comm-modbus/src/frame.rs:199-219 | the reply data of sections 6.1 and 6.3 |
| RtuFrame.ExtractInverts | crates/st-comm-modbus/src/frame.rs:199-204 | extraction undoes big-endian packing of any register list |
| RtuFrame.RegisterRoundTrip | crates/st-comm-modbus/src/frame.rs:119-138 | extracting the announced data from the built frame gives the list if and only if it has at most 127 |
| RtuFrame.ReplyRoundTrip | crates/st-comm-modbus/src/frame.rs:142-171 | parsing a well-formed read reply returns its body |
| RtuFrame.ExceptionReported | crates/st-comm-modbus/src/frame.rs:149-161 | an exception reply is reported with address, function and code |
| RtuFrame.CorruptReplyRejected | crates/st-comm-modbus/src/frame.rs:142-171 | a good reply hit by a burst of up to 16 bits never yields data |
| RtuClients.RtuClient.Transact | crates/st-comm-modbus/src/rtu_client.rs:138-160 | the frame that comes of a request for any line behaviour, with the parser bound to the request |
| RtuClients.RtuClient.ReadRegisters | crates/st-comm-modbus/src/rtu_client.rs:84-97 | the request sent and the answer for any line behaviour |
| RtuClients.RtuClient.ReadCoils | crates/st-comm-modbus/src/rtu_client.rs:70-83 | the same for coils and inputs |
| RtuClients.RtuClient.WriteRegisters | crates/st-comm-modbus/src/rtu_client.rs:123-127 | the same for a multiple write |
| RtuClients.HonestReply | crates/st-comm-modbus/src/rtu_client.rs:136-160 | the streaming parser completes exactly at the reply's end and the body comes back, up to 251 bytes; above, TooLong; a timeout comes only before the reply is complete |
| RtuClients.DeviceRegistersArrive | crates/st-comm-modbus/src/rtu_client.rs:84-97 | end to end: the client returns the registers the device holds |
| RtuClients.DeviceCoilsArrive | crates/st-comm-modbus/src/rtu_client.rs:70-83 | likewise the coils or inputs |
| RtuClients.WriteAnswered | crates/st-comm-modbus/src/frame.rs:175-195 | the client reports success exactly when the device echoes the write, and not when it sends an exception |
| Profile.ComputeFieldOffsets | crates/st-comm-modbus/src/device_fb.rs:61-70 | each field starts after the values of all earlier fields |
| Profile.ExpandRegisters | crates/st-comm-modbus/src/device_fb.rs:322-351 | the register list in profile order, with 16-bit addresses |
| FieldIo.RegisterAt | crates/st-comm-modbus/src/device_fb.rs:322-351 | value j of a kept field stands at the field's offset plus j among the values and at its address plus j, in 16 bits, on the device, with its kind, behind the registers of the fields before |
| FieldIo.FieldOfRegister | crates/st-comm-modbus/src/device_fb.rs:322-351 | and every register of the list is such a value |
| FieldIo.FieldNotSplit | crates/st-comm-modbus/src/device_fb.rs:400-421 | the registers of one field are never split between two transactions |
| FieldIo.InputFields | crates/st-comm-modbus/src/device_fb.rs:385-468 | a fault-free input pass loads value j of each field that is read from the cell j addresses behind the field's own, and leaves all other values alone |
| FieldIo.OutputFields | crates/st-comm-modbus/src/device_fb.rs:473-575 | a fault-free output pass leaves value j of a written field in the cell j addresses behind the field's own, unless a later value goes there |
| Profile.ExpandHasAll | crates/st-comm-modbus/src/device_fb.rs:322-351 | exactly the kept fields with a register appear, each with all its registers |
| Profile.IndicesIncrease | crates/st-comm-modbus/src/device_fb.rs:322-351 | no value index is used twice and all lie in the expanded value list |
| Profile.LayoutToMemoryLayout | crates/st-comm-api/src/native_fb.rs:377-425 | the slots tile [0, expanded field count) without gap or overlap |
| Profile.ProfileFieldStarts | crates/st-comm-api/src/native_fb.rs:203-238 | profile field i starts at 10 plus its computed offset, the index the device block uses |
| Batching.RunMembers | crates/st-comm-modbus/src/device_fb.rs:407-417 | a run has one kind and addresses counting up |
| Batching.RunIsMaximal | crates/st-comm-modbus/src/device_fb.rs:407-417 | a run ends only where the list, the kind or the address sequence does |
| Batching.ReadBatchedIo | crates/st-comm-modbus/src/device_fb.rs:385-468 | the loops leave the read values and last error of the batched read |
| Batching.BatchReadIsSingleRead | crates/st-comm-modbus/src/device_fb.rs:385-468 | if every run is answered, batched and one-by-one reading leave the same values and no error |
| Batching.InputPass | crates/st-comm-modbus/src/device_fb.rs:385-468 | a fault-free pass stores every non-virtual input register, converted, at its own index and changes nothing else |
| Batching.ErrorIsRemembered | crates/st-comm-modbus/src/device_fb.rs:385-468 | the error code is 0 exactly when every transaction succeeded |
| Batching.WriteBatchedIo | crates/st-comm-modbus/src/device_fb.rs:473-575 | the loops leave the device memory and last error of the batched write |
| Batching.BatchWriteIsSingleWrite | crates/st-comm-modbus/src/device_fb.rs:473-575 | if every run is answered, the device ends as after single writes in list order, overlapping addresses included |
| Batching.WritesOnlyItsRegisters | crates/st-comm-modbus/src/device_fb.rs:473-575 | cells no writable register names stay as they were |
| HonestSlave.ReadArrives | crates/st-comm-modbus/src/rtu_client.rs:70-100 | the device reads kind, address and count in the client's request |
| HonestSlave.ReadingIsCells | crates/st-comm-modbus/src/rtu_client.rs:70-100 | from a reply that carries the cells the client reads exactly the cells, if they are at most 125 registers, or 2008 coils or inputs, and nothing otherwise |
| HonestSlave.HonestAnswersFitting | crates/st-comm-modbus/src/rtu_client.rs:84-160 | a slave that answers every request with its cells gets its data through exactly for requests of at most 125 registers, or 2008 coils or inputs |
| HonestSlave.BatchIsSingleIffShort | crates/st-comm-modbus/src/device_fb.rs:385-468 | with such a slave batched and one-by-one reading leave the same if and only if no run is longer than that or wraps the address |
| HonestSlave.LongRunDiffers | crates/st-comm-modbus/src/device_fb.rs:407-421 | from 126 consecutive holding registers on they differ |
| WritingSlave.WriteArrivesIff | crates/st-comm-modbus/src/frame.rs:59-138 | a slave that decodes the client's write frame reads exactly the values sent, up to 127 registers or 2040 coils, and refuses longer runs |
| WritingSlave.TransactIsStored | crates/st-comm-modbus/src/device_fb.rs:487-560 | a write of the batch does to the device memory what such a slave does with its frame, and succeeds exactly when the run fits and its cells exist |
| WritingSlave.BatchWriteIsSingleIffShort | crates/st-comm-modbus/src/device_fb.rs:473-575 | with it batched and one-by-one writing leave the same memory and error if and only if no run is longer than that or wraps the address |
| WritingSlave.LongRunNotWritten | crates/st-comm-modbus/src/device_fb.rs:525-560 | from 128 consecutive holding registers on they differ |
| Batching.Poll | crates/st-comm-modbus/src/device_fb.rs:260-291 | one poll: values, device memory and every diagnostic field |
| OnlineChange.AnalyzeChange | crates/st-engine/src/online_change.rs:50-154 | compatible exactly when no function is lost, no pair of versions changes layout or types, and no global changes type; with the report |
| OnlineChange.CompatibleKeepsLocals | crates/st-engine/src/online_change.rs:157-200 | compatible implies that every old local has a slot of the same name and type |
| OnlineChange.NoLocalGone | crates/st-engine/src/online_change.rs:96-105 | a compatible change drops no local: its report lists none as removed |
| OnlineChange.Vm.ApplyOnlineChange | crates/st-engine/src/online_change.rs:271-326 | the machine becomes the migrated one, or stays untouched |
| OnlineChange.Vm.OnlineChangeModule | crates/st-engine/src/engine.rs:362-390 | accepted exactly when compatible; a rejected change leaves the machine untouched |
| ChangeAcceptance.AcceptedIff | crates/st-engine/src/online_change.rs:50-200 | accepted exactly when no POU is lost, the variables of each POU are all kept with their types, in the old order unless some are added, no name of a PROGRAM or FUNCTION_BLOCK and no global changes its type; the code never matters |
| ChangeAcceptance.CodeEditAccepted | crates/st-engine/src/online_change.rs:157-200 | a plain edit of the code is accepted and reported as one |
| ChangeAcceptance.VerdictMeans | crates/st-engine/src/online_change.rs:157-200 | what LayoutChanged, CodeOnly and VarsAdded mean |
| ChangeAcceptance.ReportMeans | crates/st-engine/src/online_change.rs:71-112 | what the report lists as kept, added and removed |
| ChangeRuns.ChangeKeepsLocal | crates/st-engine/src/online_change.rs:244-326 | an accepted change keeps the value of a local that lies in its own slot, wherever the slot moved, if and only if its POU was a PROGRAM or FUNCTION_BLOCK before |
| ChangeRuns.ChangeKeepsGlobal | crates/st-engine/src/online_change.rs:312-321 | it keeps a global if and only if the new module declares it |
| ChangeRuns.ChangeDefaultsNewGlobal | crates/st-engine/src/online_change.rs:244-268 | a new global starts at its type's default |
| ChangeRuns.LocalSurvives | crates/st-engine/src/online_change.rs:244-326 | a scalar local that nothing writes keeps its value at every point of a run of scans, other writes and changes if and only if its POU retains locals whenever a change is accepted |
| ChangeRuns.GlobalSurvives | crates/st-engine/src/online_change.rs:312-326 | the same for a global, if and only if every accepted module declares it |
| ChangeRuns.PartSurvives | crates/st-engine/src/vm.rs:457-467 | a field or array cell keeps its value through a run whose accepted changes do not move it |
| ChangeRuns.LastWriteWins | crates/st-engine/src/online_change.rs:244-326 | after any run a scalar local holds what was last written to it, narrowed to its width |
| ChangeRuns.PartKeptIffUnmoved | crates/st-engine/src/vm.rs:457-467 | a field of an instance or structure, or a cell of an array, named by program, variable and part, keeps its value in every state if and only if POU index, slot and cell in the type's layout are all unchanged |
| ChangeRuns.NewFieldTakesOver | crates/st-engine/src/vm.rs:457-467 | an accepted change that puts a field in front of another makes the new one read the old one's value |
| ChangeRanges.RangesKeptIff | crates/st-engine/src/online_change.rs:244-326 | every state whose globals, retained locals and instance cells are within their integer ranges migrates to such a state if and only if each slot is at least as wide as the one whose value it takes by name, and each cell as the one at its place; over all such states and over those that earlier changes left nothing behind in |
| ChangeRanges.NewFieldOutOfRange | crates/st-engine/src/vm.rs:457-467 | an accepted change that puts a SINT field in front of an INT field makes the new one read 300 |
| ChangeRefs.LocalRefKeptIff | crates/st-engine/src/vm.rs:1911-1950 | a reference to a variable of its own program leads to the same value after an accepted change, in every state, if and only if the variable keeps its slot |
| ChangeRefs.GlobalRefKeptIff | crates/st-engine/src/vm.rs:1922-1935 | likewise a reference to a global |
| ChangeRefs.InsertionMovesTarget | crates/st-engine/src/vm.rs:1917-1945 | a variable inserted before the target, which the analysis accepts, takes its place behind the reference |
| ChangeRuns.WidthIsNotCompared | crates/st-engine/src/online_change.rs:157-171 | an accepted change can leave 300 in a SINT slot |
| ChangeRuns.ChangedKindLosesState | crates/st-engine/src/online_change.rs:296-310 | PROGRAM to FUNCTION and back, both accepted: the second change loses the locals |
| Retain.CaptureSnapshot | crates/st-engine/src/retain_store.rs:98-213 | the snapshot holds every flagged variable, whatever the map order |
| Retain.SnapshotIsDetermined | crates/st-engine/src/retain_store.rs:98-213 | two snapshots of one state are equal |
| Retain.CapturedIsUniform | crates/st-engine/src/retain_store.rs:56-91 | in captured snapshots the flags of one field are those of its whole instance |
| Retain.ApplyEntries | crates/st-engine/src/retain_store.rs:257-273 | one section restored in any order: each slot takes its entry if flagged and type-compatible; exactly the others are reported |
| Retain.RestoreSnapshot | crates/st-engine/src/retain_store.rs:224-448 | globals, locals and instance fields afterwards, independent of map order |
| Retain.GlobalSavedIff | crates/st-engine/src/retain_store.rs:98-117 | a global is saved, with value and flags, if and only if it is RETAIN or PERSISTENT |
| Retain.LocalSavedIff | crates/st-engine/src/retain_store.rs:118-160 | so is a local that is no composite |
| Retain.CompatibleIff | crates/st-engine/src/retain_store.rs:257-273 | the values compatible with a type are those of the kind of its default, for the plain types |
| Retain.GlobalRoundTrip | crates/st-engine/src/retain_store.rs:256-273 | a flagged scalar global gets its captured value, every other global keeps its own |
| Retain.LocalRoundTrip | crates/st-engine/src/retain_store.rs:275-326 | a flagged scalar local gets its captured value, the others what the restarted machine has |
| Retain.FieldRoundTrip | crates/st-engine/src/retain_store.rs:328-444 | a plain field of a flagged instance gets its captured value |
| Retain.FlaggedLocalIsSaved | crates/st-engine/src/retain_store.rs:118-204 | a program that has run is in the snapshot if and only if it has a flagged local that is no composite |
| Restart.ScanReachesBody | crates/st-engine/src/vm.rs:135-165 | the first scan reaches the body with the retained locals, or else with every local at its declared initial value |
| Restart.UnflaggedStartsInitialIff | crates/st-engine/src/vm.rs:142-152 | after a restore before the first scan, a local that is not restored starts at its declared initial value if and only if that is its type's default or the program has no local the snapshot saves |
| Restart.InitialiserSkipped | crates/st-engine/src/vm.rs:142-152 | A retained and B := 5: the first scan after a restore begins with B = 0 |
| BusLoop.Bus.RegisterDevice | crates/st-comm-serial/src/bus.rs:70-111 | the device is appended, the thread started once |
| BusLoop.Bus.Pass | crates/st-comm-serial/src/bus.rs:133-150 | one pass is the run of its checks |
| BusLoop.Spacing | crates/st-comm-serial/src/bus.rs:137-149 | polls never overlap, and a device's next poll starts at least its interval after its last one ended |
| BusLoop.CheckPollsIff | crates/st-comm-serial/src/bus.rs:137-149 | a check polls its device if and only if the log has no poll of it yet or the last one ended at least its interval ago |
| BusLoop.BoundedBypass | crates/st-comm-serial/src/bus.rs:133-157 | once that holds, at most n-1 polls of others start before its own, with devices registering between passes |
| BusLoop.DueIsServed | crates/st-comm-serial/src/bus.rs:133-157 | and it is polled within that many checks |
| DapSessions.DapSession.HandleRequest | crates/st-dap/src/server.rs:712-781 | every request gets a response with its own sequence number |
| DapSessions.DapSession.HandleInflight | crates/st-dap/src/server.rs:2628-2670 | during a run SetBreakpoints and Evaluate are answered at once, with their own success, and everything else is put off |
| DapSessions.DapSession.ProcessInflight | crates/st-dap/src/server.rs:2628-2670 | draining loses nothing, and reports Pause and Disconnect exactly |
| DapSessions.DapSession.InterruptibleSleep | crates/st-dap/src/server.rs:2675-2691 | the sleep ends early exactly when a Pause or Disconnect came |
| DapSessions.DapSession.ResumeExecution | crates/st-dap/src/server.rs:2693-2849 | the run loop conserves requests and reads the channel exactly as far as its turns and sleeps say; a step command does not look at it |
| DapSessions.StopEndsRun | crates/st-dap/src/server.rs:2693-2849 | a Pause or Disconnect that has arrived by the end of a cycle ends the run there |
| DapSessions.DapSession.DrainRequests | crates/st-dap/src/server.rs:221-240 | afterwards both deferred lists are empty and all received requests answered |
| DapSessions.DapSession.ServeOne | crates/st-dap/src/server.rs:151-246 | one turn settles all requests; a resume command starts a run loop only when it is not a deferred one |
| DapSessions.DapSession.Serve | crates/st-dap/src/server.rs:151-247 | in every run the responses owed for the requests received are those written and deferred plus those of deferred requests, as multisets, and at each loop head every received request has exactly its own response |
| Calendar.EpochMsIsDayCount | crates/st-compiler/src/compile.rs:1726-1736 | the value is the true day count if and only if the March-based year is non-negative or a leap year, so for every date from year 1 |
| Calendar.YearZeroIsLate | crates/st-compiler/src/compile.rs:1726-1736 | the first of January of year 0 is one day late |
| Calendar.NextDayAddsOneDay | crates/st-compiler/src/compile.rs:1726-1736 | the next calendar day adds exactly one day |
| Calendar.EpochMsIncreases | crates/st-compiler/src/compile.rs:1726-1736 | later dates have larger values |
| Breakpoints.ComputeLineOffsets | crates/st-engine/src/debug.rs:449-457 | the start of every line, in order |
| Breakpoints.ByteOffsetToLineCol | crates/st-dap/src/server.rs:2876-2885 | line and column of a byte offset |
| Breakpoints.LineOf | crates/st-engine/src/debug.rs:128-135 | the bytes of line k are exactly those with k line breaks before them |
| Breakpoints.DebugState.SetLineBreakpoints | crates/st-engine/src/debug.rs:111-161 | each placed breakpoint is a mapped statement of its line, and a line gets none only if the file has none there |
| Breakpoints.RoundTrip | crates/st-dap/src/server.rs:2876-2885 | the offset of a placed breakpoint turns back into the requested line |

## Left out

- Cyclic inheritance: no check in the repository rejects it, and both walks of `ClassLayout` then run for ever; the methods take a bound on their steps, which the code has not.
- Duplicate names in a module: the analysis keeps the last of them and the machine the first. The online-change path compiles without semantic analysis, so there unique names are a hypothesis that nothing checks.
- Instances inside instances: they are keyed by the enclosing call, and only the variables of a POU's own frame are followed through changes and restores.
- HonestSlave.BatchIsSingleIffShort: the list has fewer than 65536 registers; the code counts a run in 16 bits.
- WritingSlave.BatchWriteIsSingleIffShort: likewise; and the slave takes every frame it can read, where one that keeps to the limits of the Modbus application protocol refuses more than 123 registers or 1968 coils.
- ForLoops.CountingLoopEnds: bound and step must be integers.
- ChangeRefs.LocalRefKeptIff: for a program at the bottom of the call stack; references into the frames of callers, which end with the call, are not followed.
- ChangeRanges.RangesKeptIff: takes the default of every slot's type to be within its width, as it is when both come from one declaration.
- Calls, method calls, the intrinsic functions, REF and dereference, arrays, partial access and string operations in the compiler's meaning theorem: they add cases to the simulation, not depth.
- Register, label and slot numbers are unbounded; the code keeps them in 16 or 32 bits and a POU with more than 65535 registers is not modelled.
- The first IF condition and the ELSIF arms are one list in the model; the emitted code is the same.
- Floating-point arithmetic in the machine is a parameter (`FloatUnit`); REAL values are opaque bit patterns.
- The instruction limit, debugger pauses and forced variables of the machine.
- FunctionResult: needs that no parameter or variable declared earlier has the function's name; otherwise name lookup finds that one.
- The TCP client and the UPP command tables: near copies or finite tables.
- Ports, threads, locks and the operating system are a schedule of reads (`Framing.Line`), the results of the other calls (`SerialTransports.Host`) and a clock in ticks; a read that brings nothing takes at least one tick.
- Bytes discarded by clearing the input buffer: a line starts with the first byte after the request.
- A device that returns more registers than were asked for; the code would index past the run.
- Value conversions between registers and typed values are abstract functions in `Batching`; error texts are the codes they classify to.
- The conversion of array bounds that run downwards in `layout_to_memory_layout`, and the numbering of array types there.
- Saving the retain file before an online change, its JSON form and its atomic replacement.
- Retain.RestoreSnapshot: for a snapshot file with different flags inside one instance the instance part depends on map order and is not specified; captured snapshots have none.
- Native function blocks with array fields in retain: the code rebuilds their state by slot count.
- The wording and order of warnings, events, telemetry and log output.
- Whether a Disconnect ends the run: one seen during the sleep only continues the loop, so no liveness is claimed.
- A failing writer in the debug server.
- Parsing of date literals and of the source text for function names; `Breakpoints` takes the names as given.
