# ACLM, modelled and verified in Dafny

ACLM compiles a small assembly-like language to x86-64 executables without an assembler or a linker: it expands
macros, lexes and parses, walks the statements to emit machine code, patches relocations, and writes an ELF file or a
bootable Multiboot kernel. This project models that chain from the macro lines to the loaded bytes, together with the
data structures and protocols whose code the generator emits, and proves what each part promises.

The chain, file by file:

- `Words`, `Memory`, `Regs`, `Isa`, `MachineSteps`: 64-bit words and little-endian bytes, byte memory, the register
  map, and an executable semantics of the emitted instructions with their flags. A flag the processor leaves undefined
  is `None`, and a branch that reads one is a fault. Only the parity flag is missing.
- `Encoding`, `EncodingProofs`: the encoder's bytes, and an independent decoder after section 2.1 and section 2.2.1 of
  the Intel SDM, Vol. 2A.
- `Assembly`, `AssemblerObject`: symbolic items, labels and relocations as a specification, and the assembler object
  with its growing buffer and its patching loop proved against it.
- `Ast`, `Codegen`, `CodeGeneratorObject`, `Programs`: what every operand, statement, function and program emits, as a
  specification, and the generator object proved to append exactly that or to fail exactly when it does.
- `Semantics`, `ExprProofs`, `StmtProofs`, `MarshalProofs`, `MemoryStmts`, `Frames`: running the emitted code gives the
  operand's value, the operation's result, a parallel assignment of arguments, a store, a balanced frame; and where it
  does not, the value it gives instead.
- `Simulation`, `Flow`, `Calls`, `SourceLanguage`, `ProgramSimulation`: items with labels, jumps, calls and returns, and
  fetch, decode and execute on the linked bytes doing the same; calls of functions that call; and whole runs against a
  label-level interpreter.
- `FnLanguage`, `FnStatements`, `FnSimulation`, `FnPrograms`, `FnExample`: an interpreter for programs with functions,
  arguments, locals, compound operands, nested and recursive calls and returned values; the bytes follow it; and a
  recursive function on the machine. It gives no result where a program reads a register, local or flag nobody has set,
  or one the generated code has lost.
- `Images`, `LayoutProofs`, `Boot`, `BootProofs`, `KernelProofs`: the executable files read back by an ELF loader, the
  kernel image with its page tables, its boot sequence executed up to the payload, and the payload's run from there.
- `Macros`, `MacroProofs`, `LocalLabels`, `Substitution`, `ExpansionLabels`, `PassedLabels`, `Text`, `TextProofs`: macro
  expansion, local labels through substitution, expansion and renaming, lexer and expression parser.
- `Threads`, `ThreadCode`, `Ramfs`, `RamfsCode`, `RamfsGet`, `RamfsOperands`, `DmaRing`, `DmaRingMemory`, `DmaRingPush`,
  `DmaRingPop`, `DmaRingCode`, `Context`, `Idt`: the run-time structures, each as a specification and as the emitted instructions.

Where the source updates objects or runs loops, the model has a class or a method with loops, and its contract ties the
result to a function about which the properties are then proved. Errors the source raises are `None`, `Fail` or
`Failure` values.

Where the code does not do what its own comments and documentation suggest, the model follows the code and states the
exact condition:

- a compound left operand overwrites r12, which is the user register `reg10`, before the right operand reads it: an
  operand is right exactly when the value seen that way is its value (`ExprProofs.EvalRightIff`,
  `ExprProofs.LateR12Read`);
- so is `reg10` as the destination of an operation with a compound operand: `cpu:add reg10, reg1 + 8` adds to what the
  evaluation left there (`StmtProofs.RegisterRightIff`, `StmtProofs.RegisterLost`);
- a local destination with a compound operand is lost in r11: right exactly when the operation cannot tell the operand
  from the old value (`StmtProofs.CompoundLocalRightIff`);
- a memory store evaluates its value into r12 before it reads a base in r12 (`MemoryStmts.StoreReachesBaseIff`);
- the compare-and-swap gate parks rax in r13 before it reads an operand there, and moves a new value to r12 before it
  reads an expected value there (`MemoryStmts.CasRightIff`, `MemoryStmts.CasStoresIff`);
- a put into the file table evaluates its operands into r12, r13 and r14 one after the other: a compound data or length
  operand overwrites the name's address, and later operands read earlier ones (`RamfsOperands.PutEntryIff`,
  `RamfsOperands.PutSimpleIff`, `RamfsOperands.PutCompoundName`, `RamfsOperands.NameLost`);
- a local declared with size 0 gets the word of the local before it, or of the saved r14 (`Frames.WordsApartIff`);
- a put into a full file table stores behind the table (`Ramfs.FullPutSpills`), and a get into r12, r13 or r14 pops the
  old value over its answer (`RamfsGet.GetLooksUp`);
- W^X padding is linked in but not written for debug and kernel images (`LayoutProofs.DataAddressIff`);
- a negative allocation size moves the running offset away from the data (`LayoutProofs.OffsetTracksBytes`);
- a memory index in rsp cannot be encoded (`EncodingProofs.RspIndexLost`);
- the counter of finished threads can decrease: it counts the completion stores exactly when no worker's window from
  load to store holds another worker's store (`Threads.DoneExactIff`, `Threads.LowersIff`, `Threads.DoneCanDecrease`);
- a local label passed as a macro argument no longer names its definition: an argument is kept exactly when it holds no
  local label, and an argument without one leaves a line's labels alone exactly when it does not touch label text
  (`Substitution.ArgumentKeptIff`, `Substitution.SubstitutedLabelsIff`, `PassedLabels.ArgumentLabelIsLost`);
- a ring push of a compound operand masks the head with the operand (`DmaRingPush.CompoundPushIff`), and a ring pop
  delivers its pair exactly to two different registers outside rax and r8 to r10, coincidences of the values aside
  (`DmaRingPop.PopRightIff`, `DmaRingPop.PopFreeIff`).

The register tables in the documentation list r11 and r15 differently from `ACLM/regs.py`; the code is followed.

## Model

| member | source | states |
|---|---|---|
| Regs.ResolveIsUser | ACLM/regs.py:42-59 | no spelling of a register name reaches r11, r15, rbp or rsp, and the register names are exactly the names that resolve |
| Regs.VirtualNames | ACLM/regs.py:10-17 | every user register has exactly one current virtual name |
| Regs.OldNameAliases | ACLM/regs.py:19-22 | `reg12` and the old `reg13` are both r14 |
| Words.AndMask | ACLM/codegen.py:2609-2611 | masking with 2^n - 1 is the remainder modulo 2^n |
| Words.TruncDivMod | ACLM/codegen.py:788-804 | signed division rounds toward zero and the remainder has the sign of the dividend |
| EncodingProofs.RoundTrip | ACLM/x64enc.py:136-355 | decoding the bytes of any legal instruction followed by anything gives the instruction and its length |
| EncodingProofs.LoadRoundTrip | ACLM/x64enc.py:185-260 | loads of every width, register pair, index, scale and displacement decode back |
| EncodingProofs.StoreRoundTrip | ACLM/x64enc.py:261-326 | stores of every width, register pair, index, scale and displacement decode back |
| EncodingProofs.MovImmRoundTrip | ACLM/x64enc.py:136-174 | whichever immediate form is chosen, the loaded value is the same |
| EncodingProofs.StreamRoundTrip | ACLM/x64enc.py:113-118 | a stream of instructions decodes to the same stream |
| EncodingProofs.PrefixFree | ACLM/x64enc.py:328-355 | no instruction's bytes are a proper prefix of another's |
| EncodingProofs.RspIndexLost | ACLM/x64enc.py:185-326 | an index register survives encoding, in loads and in stores, exactly when it is not rsp |
| Assembly.EmitKeepsFields | ACLM/x64enc.py:116-118 | relocation fields stay inside the code and never overlap |
| Assembly.LinkFailsIff | ACLM/x64enc.py:120-132 | linking fails exactly on an undefined target or one out of 32-bit range |
| Assembly.LinkKeepsRest | ACLM/x64enc.py:120-132 | linking changes no byte outside a field |
| Assembly.LinkReaches | ACLM/x64enc.py:128-132 | every field holds the distance from its end to its label |
| Assembly.LinkIdempotent | ACLM/x64enc.py:120-132 | linking twice is linking once |
| Assembly.LinkIsResolution | ACLM/x64enc.py:105-132 | the linked bytes are the encodings of the instructions with their final displacements |
| AssemblerObject.Assembler.Label | ACLM/x64enc.py:105-108 | binds a fresh label to the end of the buffer and refuses a second definition |
| AssemblerObject.Assembler.EmitReference | ACLM/x64enc.py:515-527 | emits an opcode and records the field behind it |
| AssemblerObject.Assembler.EmitMovImm | ACLM/x64enc.py:136-174 | chooses the immediate form and emits exactly its bytes |
| AssemblerObject.Assembler.LoadMem | ACLM/x64enc.py:185-260 | appends exactly the bytes of a load of any width, or refuses a displacement that does not fit or a scale it does not know; they assemble the load unless its index is rsp |
| AssemblerObject.Assembler.StoreMem | ACLM/x64enc.py:261-326 | the same for stores |
| AssemblerObject.Assembler.Link | ACLM/x64enc.py:120-132 | the patching loop computes the specified linked code, or fails exactly when there is none |
| CodeGeneratorObject.CodeGenerator.Eval | ACLM/codegen.py:209-272 | appends the specified operand code, or fails exactly on the operands the source refuses |
| CodeGeneratorObject.CodeGenerator.EmitCpuBin | ACLM/codegen.py:746-808 | appends the specified code of a binary statement for register and local destinations |
| CodeGeneratorObject.CodeGenerator.EmitUnary | ACLM/codegen.py:811-830 | appends the specified code of a unary statement |
| CodeGeneratorObject.CodeGenerator.EmitCmp | ACLM/codegen.py:286-295 | appends the specified code of a comparison |
| CodeGeneratorObject.CodeGenerator.EmitMarshal | ACLM/codegen.py:308-316 | evaluates and pushes up to six arguments, then pops them last first |
| CodeGeneratorObject.CodeGenerator.EmitCall | ACLM/codegen.py:308-317 | appends the specified code of a call |
| CodeGeneratorObject.CodeGenerator.EmitSyscall | ACLM/codegen.py:922-947 | appends the specified code of a system call by number or name; fails on an unknown name and in a bare-metal program |
| CodeGeneratorObject.CodeGenerator.EmitStmt | ACLM/codegen.py:274-330 | appends a statement's code; fails exactly when it has none or its label is taken |
| CodeGeneratorObject.CodeGenerator.EmitBody | ACLM/codegen.py:1713-1714 | appends statements in order and stops at the first error |
| CodeGeneratorObject.CodeGenerator.EmitFn | ACLM/codegen.py:1674-1719 | appends label, prologue, body and epilogue, with the function's names in scope for the body only |
| CodeGeneratorObject.CodeGenerator.CollectStructs | ACLM/codegen.py:127-137 | field offsets and sizes of the declared structs |
| CodeGeneratorObject.CodeGenerator.PlaceDecl | ACLM/codegen.py:174-207 | one data declaration grows the data area and the name tables as specified |
| CodeGeneratorObject.CodeGenerator.CollectData | ACLM/codegen.py:172-207 | the collected data area, or failure exactly on an unknown size |
| CodeGeneratorObject.CodeGenerator.LinkMap | ACLM/codegen.py:96-109 | code labels, data labels behind the code, and the W^X padding on data labels only |
| CodeGeneratorObject.CodeGenerator.Generate | ACLM/codegen.py:58-113 | collect, emit, link: the specified code and data, or failure exactly when there are none |
| ExprProofs.EvalSees | ACLM/codegen.py:209-272 | for every operand tree the destination holds what the tree sees, r12 being read where the code stands; rsp is restored, memory at or above rsp is unchanged and only the destination, r11, r12 and flags differ |
| ExprProofs.EvalRightIff | ACLM/codegen.py:209-272 | so the destination holds the value mod 2^64 exactly when what the tree sees is its value |
| ExprProofs.SeenIsValue | ACLM/codegen.py:209-272 | a tree whose reads of r12 come in time sees its value |
| ExprProofs.EvalCorrect | ACLM/codegen.py:209-272 | such a tree is evaluated to its value mod 2^64, with the same frame |
| ExprProofs.LateR12Read | ACLM/codegen.py:255-272 | reading r12 to the right of a compound operand gives that operand's own right value; the result is right exactly when the operation does not tell the two apart, which a sum or a difference always does |
| ExprProofs.ValueSame | ACLM/codegen.py:209-254 | an operand's value does not depend on the scratch registers or on memory below rsp |
| StmtProofs.CpuBinSees | ACLM/codegen.py:746-806 | for every register destination and every operand, compound ones included, the statement applies its operation to what it sees, faults exactly when the operation does, balances the stack and keeps every other user register, r12 too for a simple operand |
| StmtProofs.CpuBinRegister | ACLM/codegen.py:746-806 | with an operand that reads r12 in time, and a destination other than `reg10` unless the operand is simple or the operation is `set`, that is the operation on the values before the statement; it faults exactly on division by zero, an unrepresentable quotient, or a rotate through an undefined carry |
| StmtProofs.RegisterRightIff | ACLM/codegen.py:746-806 | for every operation, register destination and operand: result and fault are those of the operation on the register's old value exactly when the destination is not r12, or the operation is `set`, or the operand is simple, or the operation cannot tell what the evaluation left in r12 from the old value |
| StmtProofs.RegisterLost | ACLM/codegen.py:754-766 | `cpu:add reg10, reg1 + 8` with 1 in reg10 and 0 in reg1 gives 16 and not 9 |
| StmtProofs.CpuBinLocalSees | ACLM/codegen.py:746-808 | for a local destination and every operand the slot gets the operation of what the code sees, and only the slot, r11, r12 and flags change |
| StmtProofs.CpuBinLocal | ACLM/codegen.py:746-808 | with a simple operand, or a `set`, that is the operation on the values before the statement; a `set` of a simple operand keeps r12 |
| StmtProofs.CompoundLocalRightIff | ACLM/codegen.py:750-762 | for every operation and compound operand, as the code sees it: the operand is combined with itself, and result and fault are right exactly when the operation cannot tell the operand from the local's old value |
| StmtProofs.CmpSees | ACLM/codegen.py:286-295 | for every two operands the flags are those of comparing what the code sees, and every register but r12 and r15 is kept |
| StmtProofs.CmpCorrect | ACLM/codegen.py:286-295 | for operands that are simple or read r12 in time the flags are those of comparing the two values; r15 changes, r12 only when an operand is compound, and no other register does |
| StmtProofs.CpuUnaryRegister | ACLM/codegen.py:811-827 | not, neg, inc and dec of a register |
| StmtProofs.CpuUnaryLocal | ACLM/codegen.py:811-830 | the same for a local: only its slot, r11 and flags change |
| StmtProofs.ShiftByRegCorrect | ACLM/codegen.py:772-787 | a shift by a register goes through cl and gives rcx or rax back |
| StmtProofs.DivisionCorrect | ACLM/codegen.py:788-804 | quotient or remainder into the destination, rax and rdx restored, rax and rdx as destinations included |
| MarshalProofs.MarshalSees | ACLM/codegen.py:308-316 | for all operands each argument register receives what its operand sees, evaluated in order, and rsp is balanced |
| MarshalProofs.MarshalCorrect | ACLM/codegen.py:308-316 | for operands that read r12 in time that is the value from before the statement, however the operands permute the registers |
| MarshalProofs.TargetsDistinct | ACLM/codegen.py:311-316 | both register lists are six distinct registers other than rsp and r12 |
| MarshalProofs.SyscallPreserves | ACLM/codegen.py:935-947 | the kernel sees the number and, for all operands, what they are seen as, their values when they read r12 in time; whatever it does to rcx and r11, both are back afterwards and rsp is balanced |
| MemoryStmts.OffsetIsValue | ACLM/codegen.py:846-868 | a resolved constant offset is the value of the same expression at run time |
| MemoryStmts.StoreRuns | ACLM/codegen.py:898-920 | a store of any operand through any base, at any address, writes the low bytes of what it sees at the address it sees and nothing else at or above rsp; r12 is popped back, as the store left its stack word |
| MemoryStmts.StoreReachesBaseIff | ACLM/codegen.py:899-902 | executed at any address, it is the store at base plus offset exactly when the base is not r12, or r12 already holds the value, or the bytes in memory hide the difference |
| MemoryStmts.CasIsSeen | ACLM/codegen.py:1232-1256 | the gate compares and swaps with the operand values it sees, and every register afterwards |
| MemoryStmts.CasRightIff | ACLM/codegen.py:1232-1256 | for all operands the word after the gate is the one a compare-and-swap of the registers' own values leaves exactly under the stated condition on what it sees |
| MemoryStmts.CasStoresIff | ACLM/codegen.py:1238-1248 | a swap that should succeed, for all registers, stores the new value exactly when nothing was parked over it, or, with the expected value displaced, when the word holds it already |
| Frames.LocalsDisjoint | ACLM/codegen.py:1685-1704 | locals are pairwise disjoint, 8-aligned, below the saved registers and at or above rsp |
| Frames.LocalSlotOf | ACLM/codegen.py:1697-1701 | a name's slot is that of its last declaration |
| Frames.WordsApartIff | ACLM/codegen.py:1697-1700 | the eight bytes written to a local are its own exactly when every local has a size |
| Frames.PrologueRuns | ACLM/codegen.py:1680-1704 | the prologue saves rbp, rbx, r12 to r14 below the return address and leaves rsp below the locals |
| Frames.RestoreRuns | ACLM/codegen.py:1721-1731 | from any state with rbp and the saved words intact the epilogue restores the registers and points rsp at the return address |
| Frames.CallReturns | ACLM/codegen.py:1674-1731 | over any tree of calls, a call returns to its return address with rbx, r12 to r14 and rbp as at entry, rsp one slot above entry, and every guarded byte unchanged |
| Frames.BodyReturns | ACLM/codegen.py:1713-1719 | calls inside a body keep the body's rbp, its stack bound and the guarded bytes |
| Flow.FlowStepBytes | ACLM/x64enc.py:120-132 | one step of the items, jumps, calls and returns included, is one instruction of the linked bytes |
| Flow.FlowBytes | ACLM/x64enc.py:515-527 | whatever spot the items reach, fetch, decode and execute on the bytes reach |
| Calls.CallReaches | ACLM/codegen.py:1674-1731 | on the emitted items, a call of a function whose body makes any calls returns through its address on the stack to the item behind it, with rbx, r12 to r14, rbp and rsp as before and every guarded byte unchanged |
| Calls.WalkLeaves | ACLM/codegen.py:1713-1719 | a body of stretches and calls reaches an epilogue with its frame intact |
| Calls.CallEnters | ACLM/codegen.py:308-317 | a call statement enters its callee with the operands, as seen, in the argument registers |
| Calls.CallStatement | ACLM/codegen.py:308-317 | a whole call statement: marshalling, call, callee and return, whatever the callee does within its frame |
| Calls.CallOfExpression | ACLM/codegen.py:734-740 | a call of a function that returns an expression puts that expression, over the argument values, in rax |
| Calls.BuiltApart | ACLM/x64enc.py:515-527 | different calls of a linked program return to different addresses |
| Calls.CallOnBytes | ACLM/codegen.py:308-317 | the same call statement executed from the linked bytes |
| Simulation.FetchItem | ACLM/x64enc.py:120-132 | fetching at an item's offset in the linked bytes decodes exactly that item |
| Simulation.LabelBound | ACLM/x64enc.py:105-108 | a label is bound to the offset of the item that defines it |
| Simulation.RunBytes | ACLM/codegen.py:110-111 | executing the bytes of straight-line items is running the items |
| SourceLanguage.CompareMeaning | ACLM/x64enc.py:496-513 | after a comparison each signed and unsigned condition branches on the relation it is named after |
| SourceLanguage.ConditionNames | ACLM/x64enc.py:496-500 | the names of the ten comparison conditions |
| ProgramSimulation.StepSimulation | ACLM/codegen.py:280-297 | one statement of the interpreter is its instructions on the bytes, faults included |
| ProgramSimulation.RunSimulation | ACLM/codegen.py:280-297 | every run of the bytes follows the label-level interpreter, statement for statement, for any number of statements, up to its end, a fault or a jump to a label inside a function |
| FnStatements.OperandSees | ACLM/codegen.py:209-272 | an operand over arguments, locals, registers, constants, data and structs that the interpreter for functions can evaluate has that value on the machine |
| FnStatements.StraightRuns | ACLM/codegen.py:280-330 | a statement that falls through leaves the registers, flags and slots of its activation as the interpreter says, and nothing above the locals changed |
| FnSimulation.CallFollows | ACLM/codegen.py:308-317 | a call statement, whatever its callee calls, recursion included, comes back behind itself in the state the interpreter gives, with everything from rsp upward unchanged |
| FnSimulation.BodyFollows | ACLM/codegen.py:1674-1731 | a function's body, with its jumps and calls, reaches an epilogue with its frame intact, the returned value in rax |
| FnPrograms.MainFollows | ACLM/codegen.py:78-95 | n top-level statements, with all their calls, on the emitted items |
| FnPrograms.GeneratedCallsRun | ACLM/codegen.py:58-113 | from a generated program's first byte, fetch, decode and execute follow n statements of the interpreter with all the calls they make: known registers and flags agree, and nothing from rsp upward changes |
| FnExample.TriangleReturns | ACLM/codegen.py:1674-1731 | for every n a recursive function with a local alive across its recursive call returns n(n+1)/2 mod 2^64 in the interpreter |
| FnExample.TriangleRuns | ACLM/codegen.py:308-317 | and so does every call of it on the machine, given stack for its frames |
| LayoutProofs.OffsetTracksBytes | ACLM/codegen.py:172-207 | the running data offset is the length of the data exactly when no size is negative |
| LayoutProofs.DataItemPlaced | ACLM/codegen.py:174-207 | the bytes of a declaration are where the layout puts its name |
| LayoutProofs.AlignDirective | ACLM/codegen.py:184-188 | an alignment leaves the offset at the next multiple |
| LayoutProofs.GeneratedLabels | ACLM/codegen.py:281 | no code label of a generated program can be taken for a data label |
| LayoutProofs.DataAddressIff | ACLM/codegen.py:96-125 | a data label's displacement leads to its byte exactly when W^X is not combined with a debug or kernel image, or the code length is a multiple of a page (and a kernel has code) |
| LayoutProofs.FileLoads | ACLM/codegen.py:116-125 | every written file loads the code and the data at the addresses the model assigns them |
| LayoutProofs.LeaReachesData | ACLM/x64enc.py:586-593 | executing a `lea` of a data name gives the address at which the loader put that byte |
| LayoutProofs.GeneratedIsCompiled | ACLM/codegen.py:78-95 | generated top-level code is the program the simulation speaks of |
| LayoutProofs.GeneratedProgramRuns | ACLM/codegen.py:58-125 | from statements to the loaded file to its execution, in one statement, for every program of the simulated language |
| Images.SingleLoads | ACLM/elfwriter.py:18-61 | an ELF loader puts the code at the entry base and the data right behind it |
| Images.WxLayout | ACLM/elfwriter.py:421-427 | the code starts at the first page and the padding is zero exactly for whole pages of code |
| Images.WxLoads | ACLM/elfwriter.py:391-418 | the loader puts code in a read-execute segment and data, behind the padding, in a read-write one |
| Images.BuildWxExe | ACLM/elfwriter.py:411-418 | the padding loops build the specified file |
| Images.Elf32Loads | ACLM/elfwriter.py:64-105 | the loader puts the kernel blob behind the headers |
| Boot.BootCodeSizes | ACLM/kernel_boot.py:86-89 | the sizes of trampoline and stub do not depend on the addresses in them |
| Boot.PlanOrdered | ACLM/kernel_boot.py:93-119 | the regions are in order, disjoint and aligned |
| Boot.AlignLoop | ACLM/kernel_boot.py:96-97 | an alignment loop stops, at the first aligned physical address |
| Boot.TableEntries | ACLM/kernel_boot.py:30-34 | every entry of the three page tables |
| Boot.PatchPageTables | ACLM/kernel_boot.py:30-34 | the tables are written in place |
| Boot.PlanRegions | ACLM/kernel_boot.py:93-119 | the offset, advanced through the loops, gives the planned regions |
| Boot.BuildLongModeKernel | ACLM/kernel_boot.py:83-162 | the growing image is the specified kernel file |
| BootProofs.PageTablesMap | ACLM/kernel_boot.py:30-34 | a page walk maps every address below 1 GiB to itself and nothing from there to the top of the 48-bit space |
| BootProofs.RegionsInMemory | ACLM/kernel_boot.py:121-158 | every region of the loaded image lies at the address used for it |
| BootProofs.LoadedIsTheFile | ACLM/kernel_boot.py:160-162 | the memory the boot proofs start from is what a loader makes of the file |
| BootProofs.GdtLoaded | ACLM/kernel_boot.py:46-49 | the trampoline loads the limit and address stored in the image |
| BootProofs.TrampolineRuns | ACLM/kernel_boot.py:37-62 | the trampoline enters 64-bit mode at the stub with the image's page tables |
| BootProofs.StubRuns | ACLM/kernel_boot.py:65-80 | the stub loads data segments and stack and jumps to the payload |
| BootProofs.BootReachesPayload | ACLM/kernel_boot.py:83-162 | for every payload and every load address that puts its first byte below 1 GiB, execution from the Multiboot hand-off reaches that byte in 64-bit mode with code and data in place and the identity map in force |
| BootProofs.PayloadUnmapped | ACLM/kernel_boot.py:30-34 | from 1 GiB on that byte is not mapped by the kernel's own tables |
| BootProofs.MultibootFound | ACLM/elfwriter.py:108-122 | the header is aligned, in the first 8 KiB, and its words sum to zero mod 2^32 |
| KernelProofs.KernelRuns | ACLM/codegen.py:58-125 | a generated kernel boots to the address it was linked for and its bytes there follow the interpreter of its source |
| KernelProofs.KernelCallsRun | ACLM/codegen.py:58-125 | the same with functions: from the address the boot sequence reaches, the bytes follow top-level statements with all the calls they make |
| Macros.Expander.ReadDefinitions | ACLM/compiler.py:68-100 | splits definitions from lines, or reports the definition that is not closed |
| Macros.Expander.ExpandCall | ACLM/compiler.py:119-155 | the renamed body of one call, or the missing-argument error |
| Macros.Expander.ExpandOnePass | ACLM/compiler.py:106-157 | one pass over the lines, with the shared call counter |
| Macros.Expander.ExpandAll | ACLM/compiler.py:102-171 | at most 64 passes, the last of which finds no call |
| MacroProofs.PassesAreRecursive | ACLM/compiler.py:159-169 | a successful multi-pass expansion is full recursive expansion with pairwise distinct call numbers, and leaves no call |
| MacroProofs.ExpansionIsRecursive | ACLM/compiler.py:50-171 | the same for a whole source, with nesting at most 63 |
| MacroProofs.RenameAlike | ACLM/compiler.py:136-140 | renaming labels does not change which macro a line calls, nor how many arguments it gives |
| MacroProofs.SubstituteAlike | ACLM/compiler.py:130-132 | nor does substitution into a line with a literal first word |
| MacroProofs.PassExact | ACLM/compiler.py:106-157 | a pass takes exactly one level off the call depth |
| MacroProofs.PassesSucceedIff | ACLM/compiler.py:159-169 | with n passes, expansion succeeds exactly up to depth n - 1 and otherwise reports non-termination |
| MacroProofs.ExpandSucceedsIff | ACLM/compiler.py:50-171 | literal-headed, fully supplied macros expand exactly up to nesting depth 63 |
| LocalLabels.RenamedLocals | ACLM/compiler.py:136-140 | renaming gives every local label of the text the suffix and creates no other label |
| LocalLabels.SuffixInjective | ACLM/compiler.py:136-140 | name and call number can be read off a renamed label |
| Substitution.ReplaceLabels | ACLM/compiler.py:131-132 | replacing one parameter by an argument without `~@` keeps a line's labels exactly when it does not touch label text |
| Substitution.SubstitutedLabelsIff | ACLM/compiler.py:129-132 | a substituted line has the labels of the line in the definition exactly when no argument, none of them with `~@`, touches label text |
| Substitution.ArgumentKeptIff | ACLM/compiler.py:136-140 | the renaming of a call leaves an argument as its caller wrote it exactly when it holds no local label |
| Substitution.PassedLabel | ACLM/compiler.py:130-140 | a local label in an argument gets the call's suffix, which is never its own name |
| ExpansionLabels.TraceIsExpansion | ACLM/compiler.py:106-157 | the expansion that remembers where each line was written is the full expansion |
| ExpansionLabels.OwnersAreCalls | ACLM/compiler.py:120-148 | every line belongs to a call of the expansion or to the top level |
| ExpansionLabels.ExpansionTraced | ACLM/compiler.py:106-171 | every successful expansion of a source has such a trace, with a number of its own for every call |
| ExpansionLabels.LabelsStayApart | ACLM/compiler.py:129-156 | when arguments carry no `~@` and touch no label text, and no top-level name looks renamed, two label occurrences of the expanded source are the same exactly when they come from the same call and were written the same |
| ExpansionLabels.JoinedLocals | ACLM/compiler.py:171 | joining the lines neither makes nor breaks a label |
| ExpansionLabels.FinalLabels | ACLM/compiler.py:106-185 | the same for the final names in the joined text, all of which start with `__loc`, wherever `splitlines` breaks the source |
| PassedLabels.ArgumentLabelIsLost | ACLM/compiler.py:129-140 | a concrete source of a macro that jumps to its parameter, a call with a local label and the label's definition: in the expanded text the jump names a label nobody defines |
| LocalLabels.FinalNameInjective | ACLM/compiler.py:181-183 | counter and name can be read off a final label |
| LocalLabels.LocalLabelsInjective | ACLM/compiler.py:174-185 | the final renaming is one injective map, and its names all start with `__loc` |
| LocalLabels.ExpandLocalLabels | ACLM/compiler.py:174-185 | the scan with its counter and dictionary computes that renaming |
| Text.Lexer.WordBody | ACLM/lexer.py:164-188 | the longest run of word characters |
| Text.Lexer.NumberBody | ACLM/lexer.py:190-200 | decimal digits, or a 0x prefix and what follows |
| Text.Lexer.StringToken | ACLM/lexer.py:202-215 | contents and escapes of a string, or failure exactly when it is not closed |
| Text.Lexer.Turn | ACLM/lexer.py:64-160 | one turn of the tokenizer: its token, its length, or its error |
| Text.Lexer.Tokenize | ACLM/lexer.py:62-162 | the token list, ending in EOF |
| Text.Parser.ExprAdd | ACLM/parser.py:1100-1108 | the loop builds the left-associated sum |
| Text.Parser.ExprMul | ACLM/parser.py:1110-1117 | the loop builds the left-associated product |
| Text.Parser.Primary | ACLM/parser.py:1119-1142 | parentheses, literals, registers, names and struct fields |
| TextProofs.ShowScans | ACLM/lexer.py:62-162 | the printed tree lexes to its tokens, whatever follows |
| TextProofs.OperatorScans | ACLM/lexer.py:130-137 | a spaced minus is never read as the sign of a number |
| TextProofs.SumParses | ACLM/parser.py:1100-1108 | a printed sum is read left to right, then the rest of the sum |
| TextProofs.ProductParses | ACLM/parser.py:1110-1117 | a printed product is read left to right, then the rest of the product |
| TextProofs.TextRoundTrip | ACLM/parser.py:1094-1142 | printing with minimal parentheses, lexing and parsing gives the tree back |
| TextProofs.SumNames | ACLM/parser.py:1134-1141 | whatever the tokens, a register name never becomes an identifier nor an identifier a register |
| Threads.LeavesMeaning | ACLM/codegen.py:1529-1534 | what the two join tests decide |
| Threads.IncrementSteps | ACLM/codegen.py:1506-1509 | an increment is a load, an addition and a store, each touching one place |
| Threads.SignalRefines | ACLM/codegen.py:1506-1509 | each instruction of a signal is one step of the worker in the protocol |
| Threads.BookkeepingRefines | ACLM/codegen.py:1497-1501 | each instruction of the main thread's counters is one step of the main thread |
| Threads.RunKeepsInv | ACLM/codegen.py:1470-1589 | every interleaving keeps the counter invariant |
| Threads.DoneNeverAhead | ACLM/codegen.py:1505-1509 | the counter of finished threads never exceeds the completion stores performed |
| Threads.JoinAllSafe | ACLM/codegen.py:1552-1572 | a join_all that leaves by its test finds every spawned worker signalled |
| Threads.JoinSafe | ACLM/codegen.py:1520-1549 | the k-th join that leaves by its test finds at least k workers signalled |
| Threads.DoneExactIff | ACLM/codegen.py:1505-1509 | in every interleaving the counter equals the completion stores performed exactly when no worker's window from load to store contains another worker's store |
| Threads.LowersIff | ACLM/codegen.py:1506-1509 | after any run a step lowers the counter exactly when it is a store of a value below it, and then another worker's store lies inside that worker's window |
| Threads.DoneCanDecrease | ACLM/codegen.py:1506-1509 | and in some run a late store does |
| ThreadCode.MoveRefines | ACLM/codegen.py:1470-1572 | one instruction of a worker or of the main thread, in spawn, signal, join or join_all, is at most one step of the protocol |
| ThreadCode.SystemRefines | ACLM/codegen.py:1470-1572 | every interleaving of the instructions is a run of the protocol |
| ThreadCode.SystemSafe | ACLM/codegen.py:1505-1572 | so in every interleaving the counter word never exceeds the completion stores, and both join loops leave only as promised |
| Ramfs.RamDisk.Init | ACLM/codegen.py:2060-2077 | the loop zeroes the 256 bytes of the table and nothing else |
| Ramfs.RamDisk.FindFree | ACLM/codegen.py:2089-2101 | the search stops at the first free slot or behind the table |
| Ramfs.RamDisk.CopyName | ACLM/codegen.py:2103-2119 | copies at most fifteen bytes and a NUL, inside entry and name |
| Ramfs.RamDisk.Put | ACLM/codegen.py:2079-2125 | the whole memory after a put |
| Ramfs.RamDisk.Compare | ACLM/codegen.py:2141-2160 | the byte comparison of one slot, inside entry and name |
| Ramfs.RamDisk.Get | ACLM/codegen.py:2127-2175 | the pointer of the first slot that compares equal, or 0 |
| Ramfs.PutAppends | ACLM/codegen.py:2079-2125 | a put of a fitting name with room appends an entry and changes nothing behind the table |
| Ramfs.PutStores | ACLM/codegen.py:2102-2122 | a put of any bytes with room appends an entry under the stored name, or leaves the list as it was when that is empty |
| Ramfs.OneList | ACLM/codegen.py:2127-2175 | a table is one list only |
| Ramfs.FullPutSpills | ACLM/codegen.py:2102-2122 | a put into a full table leaves the table alone and overwrites bytes 272 to 287 |
| Ramfs.GetIsLookup | ACLM/codegen.py:2127-2175 | get is the lookup of the association list |
| Ramfs.RunRefinesList | ACLM/codegen.py:2060-2125 | after init and at most eight puts the table is the list of puts |
| Ramfs.GetAfterPuts | ACLM/codegen.py:2060-2175 | get then returns the pointer of the earliest put with the name, 0 otherwise |
| RamfsCode.InitReaches | ACLM/codegen.py:2060-2077 | executing the emitted loop zeroes the table, writes nothing else but two dead stack words and clobbers rax only |
| RamfsCode.SearchReaches | ACLM/codegen.py:2094-2101 | the emitted search leaves at the first free slot or behind the table |
| RamfsCode.CopyReaches | ACLM/codegen.py:2103-2119 | the emitted copy writes the name up to its NUL, at most fifteen bytes, and a NUL |
| RamfsCode.PutReaches | ACLM/codegen.py:2079-2125 | executing a put of any operands leaves the table the specification gives, clobbers rax, rcx, rsi, rdi, r15 and for compound operands r11, and writes nothing else but dead stack words |
| RamfsGet.CompareReaches | ACLM/codegen.py:2145-2160 | the emitted comparison goes to the match exactly when the names compare equal |
| RamfsGet.LookupReaches | ACLM/codegen.py:2141-2166 | the emitted search leaves at the first match, or fails |
| RamfsGet.GetReaches | ACLM/codegen.py:2127-2175 | executing a get gives a result that depends on the 256 bytes of the table and 16 of the name only, in any destination but r12 to r14, which keep what they held; rax, rcx, rdx, rsi, rdi and for a compound operand r11 are clobbered |
| RamfsGet.InitMakesEmpty | ACLM/codegen.py:2060-2077 | on the machine, init makes any table the empty list |
| RamfsGet.PutAddsEntry | ACLM/codegen.py:2079-2125 | a put with room appends the entry of the values the code sees and keeps everything behind the table |
| RamfsOperands.PutSeenIff | ACLM/codegen.py:2086-2088 | for any operands, exactly when the three values the code sees are the operands' own |
| RamfsOperands.PutSeenIsOwn | ACLM/codegen.py:2086-2088 | they are when data and length are not compound, data does not read r12, length neither r12 nor r13, and the name reads r12 in time |
| RamfsOperands.PutSimpleIff | ACLM/codegen.py:2086-2088 | for simple data and length: exactly when data or length in r12 already holds the name's address and length in r13 the data |
| RamfsOperands.PutCompoundName | ACLM/codegen.py:2086-2105 | with a compound data or length operand the name is read at that operand's right operand |
| RamfsOperands.NameLost | ACLM/codegen.py:2086-2105 | `ramfs_put reg5, reg4 + 8, 3` reads its name from address 8, whatever the registers hold |
| RamfsOperands.PutEntryIff | ACLM/codegen.py:2079-2125 | executed with room, for any operands: the entry appended is that of the operands' own values exactly when the bytes at the address the code sees are stored as the same name and data and length are seen as their values |
| RamfsGet.GetLooksUp | ACLM/codegen.py:2127-2175 | a get is the lookup of the list exactly when its destination is not r12 to r14, or happens to hold the answer |
| DmaRing.SlotsArePowerOfTwo | ACLM/parser.py:1373-1382 | the parser always makes a power of two of at least two slots, not below the request, and less than twice it when two or more are requested |
| DmaRing.MaskedIsModulo | ACLM/codegen.py:2609-2611 | the masked next position is the next position modulo the slots |
| DmaRing.PushIsEnqueue | ACLM/codegen.py:2596-2634 | push reports full exactly with slots - 1 pairs queued, else appends its pair |
| DmaRing.PopIsDequeue | ACLM/codegen.py:2636-2668 | pop reports empty exactly when nothing is queued, else removes the oldest pair |
| DmaRing.RunRefinesFifo | ACLM/codegen.py:2596-2668 | every run of ring operations reports what the FIFO of capacity slots - 1 reports |
| DmaRing.FreshRing | ACLM/codegen.py:2584-2592 | after init the queue is empty |
| DmaRingCode.InitCorrect | ACLM/codegen.py:2576-2593 | the init code leaves an empty ring in memory and every register as it was |
| DmaRingPush.PushReaches | ACLM/codegen.py:2596-2634 | the emitted items with their labels and jumps do what the push is said to do |
| DmaRingPush.PushLeaves | ACLM/codegen.py:2596-2634 | what a push of any operands leaves: status, slot, head, registers |
| DmaRingPush.PushRightIff | ACLM/codegen.py:2596-2634 | the ring is the pushed ring exactly when it was full, or the operands are seen as their values and the mask that meets the head does the same |
| DmaRingPush.PushCorrect | ACLM/codegen.py:2596-2634 | for simple operands outside rax and r8 to r10, locals included, the ring is the pushed ring, rax the status, and every other register is kept |
| DmaRingPush.CompoundPushIff | ACLM/codegen.py:2613-2629 | a compound length, or address with a simple length, replaces the mask in r11: right exactly when the ring was full, or the operands are seen as their values and masking by the one in r11 gives the same head |
| DmaRingPop.PopReaches | ACLM/codegen.py:2636-2668 | the emitted items with their labels and jumps do what the pop is said to do |
| DmaRingPop.PopLeaves | ACLM/codegen.py:2636-2668 | what a pop leaves for any two destinations: every register, and the one word written |
| DmaRingPop.PopRightIff | ACLM/codegen.py:2636-2668 | for any two destinations a pop delivers the pair and pops the ring exactly under the stated condition |
| DmaRingPop.PopFreeIff | ACLM/codegen.py:2636-2668 | which is, coincidences of the values aside, that the destinations differ and are not among rax and r8 to r10 |
| DmaRingPop.PopEmpty | ACLM/codegen.py:2644-2668 | a pop of an empty ring reports 1 and changes nothing else, for any destinations |
| DmaRingPop.PopCorrect | ACLM/codegen.py:2636-2668 | for two free destinations the oldest pair is delivered, the ring is the popped ring, rax the status, and every other register is kept |
| DmaRingCode.StmtRefines | ACLM/codegen.py:2596-2668 | one ring statement on the machine is one operation on the ring |
| DmaRingCode.StmtsAreFifo | ACLM/codegen.py:2596-2668 | every run of ring statements and other code on one machine reports what the FIFO reports |
| DmaRingCode.InitialisedRingIsFifo | ACLM/parser.py:1373-1382 | from the requested size through init to any run: the reports are those of the empty FIFO of capacity slots - 1 |
| Context.SaveCorrect | ACLM/codegen.py:1828-1842 | a save stores the register file and ends with r11 and r15 holding the buffer's address |
| Context.LoadCorrect | ACLM/codegen.py:1844-1852 | a load restores rax to r14 and rbp, rbp through the restored r15, and leaves rsp and memory alone |
| Context.OpKeeps | ACLM/codegen.py:1952-1957 | a save, load or switch keeps the other buffers, and a load delivers its buffer's last save |
| Context.RunKeepsContexts | ACLM/codegen.py:1828-1852 | over any run on disjoint buffers every buffer keeps the register file of its last save |
| Context.LoadAfterRun | ACLM/codegen.py:1844-1852 | a load after any such run restores the last save |
| Idt.GateRuns | ACLM/codegen.py:1885-1901 | the writes of a gate make a gate to the handler and touch only its sixteen bytes and rax |
| Idt.FillRuns | ACLM/codegen.py:1880-1905 | the filling loop ends after the 256th gate with all of them filled |
| Idt.InstallFills | ACLM/codegen.py:1871-1905 | every vector points to the default handler |
| Idt.IdtrFilled | ACLM/codegen.py:1904-1911 | the table register gets limit 4095 and the table's address |
| Idt.InstallCorrect | ACLM/codegen.py:1871-1915 | the whole install: every gate points to the default handler, `lidt` reads limit and address, every register is kept, and nothing else is written but dead stack words |
| Idt.InstallReaches | ACLM/codegen.py:1871-1915 | the emitted items with their loop reach that state wherever they stand |
| Idt.FirstInstallReaches | ACLM/codegen.py:1871-1915 | the first install, which jumps over the default handler it emits, reaches the state every install does |
| Idt.PatchCorrect | ACLM/codegen.py:2028-2050 | a patch redirects its vector, changes only its gate and keeps every register |
| Idt.EventsAreMap | ACLM/codegen.py:2445-2467 | after any sequence of installs and patches that starts with an install every gate decodes to the handler the map gives it and every register is kept |
| Idt.LastInstallWins | ACLM/codegen.py:2552-2574 | that is the last handler installed for the vector since the last `idt_install`, or the default |

## Left out

- File reading, includes, the command line, listings, teach mode, running programs and the effects of Linux system calls other than on rax, rcx and r11.
- Statements other than labels, jumps, comparisons, `cpu:` statements, calls, returns, stack pushes and pops, system calls, unindexed register-based memory stores, the compare-and-swap gate and the run-time structures above.
- The port, serial, timer, interrupt-controller, network and MSR sequences, and the vector, privileged and other wide instruction encoders.
- The parity flag: conditions that read it are faults in the model.
- Memory accesses that would wrap around the top of the 64-bit address space read and write past it in the model.
- Non-ASCII characters: letters, digits and white space are classified as in ASCII, and strings enter the data area already encoded.
- Token line and column numbers, which only error messages report.
- Splitting the source text into lines before macro expansion; the results hold for lines with any of the ASCII ends `splitlines` knows.
- The contents of the debug sections of a debug executable: only that they are not loaded.
- Stack overflow: frames, saves and pushes are assumed to have room below rsp.
- Store buffers: threads interleave instruction by instruction on one memory.
- Futex waiting and wake-up, so nothing is said about when a join loop ends.
- Threads.JoinSafe: holds below 2^63 threads and joins, where the signed test and the unsigned one agree.
- MacroProofs.ExpandSucceedsIff: asks for parameters without commas, literal first words in bodies and enough arguments at every call; without these a call can appear or fail during expansion.
- Idt.InstallCorrect: starts behind the jump around the default handler, which Idt.FirstInstallReaches has; of `lidt` it models the ten bytes read; what an interrupt does through a gate is not modelled.
- Idt.InstallReaches: starts behind that jump as well.
- ThreadCode.SystemRefines: covers the counter sequences and both join loops; a clone is the arrival of a worker, and a futex call any change of rax, rcx and r11, so waiting, waking and the code around them are not modelled.
- RamfsCode.PutReaches: takes sixteen readable bytes at the name's address, apart from table and stack; the source reads fewer when the name ends earlier.
- DmaRingPush.PushCorrect: asks for operands that are not compound, not in rax or r8 to r10 and not locals inside the ring, because the code has overwritten those by then; PushRightIff has no such condition.
- DmaRingPop.PopCorrect: asks for two different destinations outside rax and r8 to r10; PopRightIff has no such condition.
- Ramfs.RamDisk.Put: states memory only; operands and registers are in RamfsCode.PutReaches.
- Ramfs.RamDisk.Get: states the result only; destinations and registers are in RamfsGet.GetReaches.
- Ramfs.RamDisk.Compare: states the result only; that it needs the slot's sixteen bytes only is in RamfsGet.CompareReaches.
- CodeGeneratorObject.CodeGenerator.EmitStmt: emits the statement kinds listed above, not those of the hardware and system statements.
- CodeGeneratorObject.CodeGenerator.CollectStructs: takes the structs at top level, not those defined inside functions.
- CodeGeneratorObject.CodeGenerator.Generate: without the data that run-time statements reserve.
- Calls.CallStatement: takes what a function's own code does between its calls as spots its items reach that keep rbp, the guarded bytes and the bound on rsp; FnSimulation.CallFollows proves these of the statements it covers.
- Calls.CallOnBytes: the same on the linked bytes; FnPrograms.GeneratedCallsRun is the statement without that assumption.
- FnPrograms.GeneratedCallsRun: one way only: where its interpreter gives nothing, for a fault, an endless run or something unknown, it does not say what the bytes do; system calls, stack pushes and pops, and the run-time structures are not among its statements, every local has a size, and the stack has room for the calls.
