# bfc code generator, modelled in Dafny

bfc compiles a tape language (`+ - < > [ ] . ,`) to assembly text for two
targets: ARM hard-float Linux and x86_64 Linux. This project models the
code generator:

- `Codegen` drives one pass over the token stream. It resets the
  register-cache flag and the two label stacks, writes the preamble, then
  each token's code in order, then the postamble. A label counter that is
  never reset numbers the loop labels `.L1`, `.L2`, ….
- The two backends write the assembly lines for each token. They share
  one optimisation, the register cache. The flag `@data_op` says that the
  accumulator register (r5, %r12b) holds the current cell and may be newer
  than memory:
  - `save_register_if_changed` stores the register only while the flag is
    set, then clears the flag.
  - `restore_register_if_changed` loads the cell only while the flag is
    clear, then sets the flag.

The model in layers:

| module (file) | what it holds |
|---|---|
| `Asm` (asm.dfy) | The abstract instructions a backend renders (`Load`, `Store`, `AddCell`, …, `Label`, `BranchIfZero`, `Jump`, the two calls). The frame operations of the preamble and postamble, and a small frame machine they act on: stack pointer, pointer register, link register, stack memory, and the address the function returns to. |
| `ArmBackend` (arm.dfy), `Amd64Backend` (amd64.dfy) | The exact text each instruction and frame operation becomes on each target. |
| `Backend` (backend.dfy) | The target fixed at construction; rendering a whole instruction list. |
| `GenSpec` (gen.dfy) | Each `gen_*` routine as a function on the generation state (flag, counter, two stacks), returning the instructions it emits. `Run` is gen_code's token loop. The lemmas prove the flag, counter and stack properties. |
| `Labels` (labels.dfy) | Label discipline of a whole run. |
| `Text` (text.dfy) | The lines each routine writes, spelled out per target. |
| `Machine` (machine.dfy) | The register cache is sound. An ideal byte tape gives the meaning of the tokens. An abstract machine with pointer, accumulator and memory runs the generated code. For loop-free streams the two write the same bytes, and at every loop head the accumulator holds the current cell. |
| `Codegen` (codegen.dfy) | The generator object as a class. Its fields are the Ruby instance variables and are updated in place. Every method is proved to leave the state and append the text that the matching `GenSpec` function describes. |

Three behaviours of the code shape the model:

- At loop begin and loop end the code calls `restore_register_if_changed`,
  a load that sets the flag; it stores nothing. Both routines therefore
  start with the accumulator valid rather than memory committed.
  `Machine.LoopHeadsAgree` shows this still gives the zero test the cell's
  true value.
- A loop end with empty stacks does not stop generation. The code pops
  Ruby's `nil`, which interpolates as an empty label. `GenSpec.Pop` models
  that. `GenCode` takes any token stream, and balanced nesting is a
  precondition only of the lemmas that need it.
- `@data_op` is not assigned in `initialize`, so it is nil, which Ruby
  treats as false. `gen_code` sets it to true before the first token.

## Model

| member | source | states |
|---|---|---|
| Decimal.ParseIntToString | codegen/arm-linux-gnueabihf-codegen.rb:16 | the stack size interpolated in decimal, with a leading minus sign when negative, reads back as the same integer |
| Decimal.IntToStringInjective | codegen/arm-linux-gnueabihf-codegen.rb:16 | two stack sizes give the same immediate text exactly when they are equal |
| Decimal.ParseNatToString | codegen/codegen.rb:55 | the decimal digits of a label number can be read back to that number |
| Decimal.NatToStringInjective | codegen/codegen.rb:55 | two different numbers never have the same decimal spelling |
| GenSpec.Start | codegen/codegen.rb:26-29 | gen_code's reset: flag true, both stacks empty, the counter left as it was |
| GenSpec.LabelNumberOfName | codegen/codegen.rb:53-56 | the label fresh_label formats from counter value n carries n |
| GenSpec.LabelNameInjective | codegen/codegen.rb:53-56 | two labels are equal exactly when their counter values are, so a counter that only grows never repeats a label |
| GenSpec.Pop | codegen/arm-linux-gnueabihf-codegen.rb:65-66 | Ruby's `Array#pop`: a non-empty stack gives up its top and keeps the rest in order; an empty one yields the empty label and stays empty |
| GenSpec.SaveRegister | codegen/arm-linux-gnueabihf-codegen.rb:79-84 | one store exactly when the flag is set and no other instruction; the flag ends clear and nothing else changes (the x86_64 routine, lines 77-82 of its file, is the same) |
| GenSpec.RestoreRegister | codegen/arm-linux-gnueabihf-codegen.rb:86-91 | one load exactly when the flag is clear and no other instruction; the flag ends set (the x86_64 routine, lines 84-89 of its file, is the same) |
| GenSpec.SaveIdempotent | codegen/arm-linux-gnueabihf-codegen.rb:79-84 | a second save right after a save emits nothing and changes nothing |
| GenSpec.RestoreIdempotent | codegen/arm-linux-gnueabihf-codegen.rb:86-91 | a second restore right after a restore emits nothing and changes nothing |
| GenSpec.DataOpStep | codegen/arm-linux-gnueabihf-codegen.rb:26-35 | a zero amount emits nothing and leaves the state unchanged; otherwise the flag ends set and nothing else in the state changes (the x86_64 routine, lines 25-34 of its file, is the same) |
| GenSpec.DataOpCode | codegen/arm-linux-gnueabihf-codegen.rb:28-34 | a nonzero data operation emits a load only if the flag was clear, never a store, and ends with one instruction adding the amount to the accumulator: an add for a positive amount, a sub of the magnitude for a negative one (the x86_64 routine, lines 27-33 of its file, is the same) |
| GenSpec.PointerOpStep | codegen/arm-linux-gnueabihf-codegen.rb:37-47 | a zero amount emits nothing and leaves the state unchanged; otherwise the flag ends clear and nothing else in the state changes (the x86_64 routine, lines 36-46 of its file, is the same) |
| GenSpec.PointerOpCode | codegen/arm-linux-gnueabihf-codegen.rb:39-46 | a nonzero pointer move emits a store only if the flag was set, never a load, and ends with one instruction moving the pointer by the amount: an add for a positive amount, a sub of the magnitude for a negative one (the x86_64 routine, lines 38-45 of its file, is the same) |
| GenSpec.LoopBeginStep | codegen/arm-linux-gnueabihf-codegen.rb:49-61 | a restore first (flag set), the begin label numbered n+1 defined, the zero test branching to the end label numbered n+2; the counter advances by two; one label pushed on each stack (the x86_64 routine, lines 48-59 of its file, is the same) |
| GenSpec.LoopEndStep | codegen/arm-linux-gnueabihf-codegen.rb:63-67 | a restore first (flag set), a jump to the label popped from the begin stack, then the definition of the label popped from the end stack; the counter is unchanged (the x86_64 routine, lines 61-65 of its file, is the same) |
| GenSpec.LoopEndPops | codegen/arm-linux-gnueabihf-codegen.rb:65-66 | the jump goes to the top of the begin stack and the label defined is the top of the end stack, each stack losing exactly its top; an empty stack yields the empty label and stays empty |
| GenSpec.PutcharStep | codegen/arm-linux-gnueabihf-codegen.rb:69-72 | the save, then the output call; the flag ends clear and nothing else in the state changes (the x86_64 routine, lines 67-70 of its file, is the same) |
| GenSpec.PutcharCode | codegen/arm-linux-gnueabihf-codegen.rb:69-72 | output is preceded by exactly one store when the flag was set, by none when it was clear, and never by a load |
| GenSpec.GetcharStep | codegen/arm-linux-gnueabihf-codegen.rb:74-77 | only the input call, no store; the flag ends clear (the x86_64 routine, lines 72-75 of its file, is the same) |
| GenSpec.Step | codegen/codegen.rb:34-41 | a token matching none of the six cases emits nothing and changes no state; only a loop begin moves the counter, by two |
| GenSpec.RunAppend | codegen/codegen.rb:33-42 | handling a token list in two parts is handling it whole: the second part starts from the state the first left, and its code follows the first part's code in input order |
| GenSpec.RunSnoc | codegen/codegen.rb:33-42 | the last token's code follows the code of the tokens before it, from the state they left |
| GenSpec.RunCons | codegen/codegen.rb:33-42 | the first token's code comes first, followed by the rest's code from the state it left |
| GenSpec.FirstLoopLabels | codegen/codegen.rb:12 | from the counter a new generator starts with, the first loop emits `.L1:` and its zero test branches to `.L2`, whatever loop-free tokens precede it; the counter ends at 2 |
| GenSpec.LabelCounter | codegen/codegen.rb:26-29 | over a run the counter grows by exactly two per loop begin and is never reset |
| GenSpec.StacksEqualDepth | codegen/codegen.rb:28-29 | two stacks of equal depth stay of equal depth through any token list |
| GenSpec.StackFrame | codegen/codegen.rb:33-42 | without underflow the stacks a run starts from stay at the bottom, and each stack holds exactly (loop begins minus loop ends) more labels |
| GenSpec.BalancedRestoresStacks | codegen/codegen.rb:28-29 | a balanced list leaves both stacks as it found them, so gen_code's run ends with both empty |
| GenSpec.LoopStructure | codegen/arm-linux-gnueabihf-codegen.rb:49-67 | `[ body ]` with balanced body: the begin label and zero test, the body's code, a jump to that same begin label and the definition of that same end label; the stacks are restored and the flag ends set |
| GenSpec.DataRunElision | codegen/arm-linux-gnueabihf-codegen.rb:26-35 | any run of data operations emits no store and at most one load: exactly one when the flag was clear and some amount is nonzero; the flag ends set if it was or if some amount is nonzero |
| GenSpec.DataRunThenMove | codegen/arm-linux-gnueabihf-codegen.rb:37-47 | data operations followed by a pointer move flush the accumulator exactly once, not once per data operation |
| ArmBackend.Lines | codegen/arm-linux-gnueabihf-codegen.rb:26-91 | one ARM line per instruction, three for the masked zero test |
| ArmBackend.Preamble | codegen/arm-linux-gnueabihf-codegen.rb:12-18 | `bfmain:` followed by the push of lr, the stack reservation and the pointer set-up, in that order |
| ArmBackend.Postamble | codegen/arm-linux-gnueabihf-codegen.rb:20-24 | the stack release, the pop of lr and the return, in that order |
| ArmBackend.PreambleFrame | codegen/arm-linux-gnueabihf-codegen.rb:12-18 | after the preamble the caller's lr is in the stack word below the caller's stack pointer, and the pointer is the new stack pointer, so a tape of stack-size cells ends just below that word |
| ArmBackend.FrameRestored | codegen/arm-linux-gnueabihf-codegen.rb:12-24 | whatever the tape program does to the pointer and lr, and to memory below the end of the tape, the postamble restores the stack pointer, reloads the caller's lr from the stack, returns to it with `bx lr`, and leaves the caller's stack memory unchanged |
| Amd64Backend.Lines | codegen/x86_64-linux-gnu-codegen.rb:25-89 | one x86_64 line per instruction, two for the zero test |
| Amd64Backend.Preamble | codegen/x86_64-linux-gnu-codegen.rb:12-18 | `bfmain:` followed by the stack reservation, `movq %rsp, %rbx` and `inc %rbx` |
| Amd64Backend.Postamble | codegen/x86_64-linux-gnu-codegen.rb:20-23 | the stack release and `ret` |
| Amd64Backend.FrameRestored | codegen/x86_64-linux-gnu-codegen.rb:12-23 | after the preamble the pointer is rsp + 1, so a tape of stack-size cells ends on the caller's stack pointer, the lowest byte of the return address. Whatever the tape program does to the pointer and to memory below the end of the tape, the postamble restores the stack pointer and `ret` pops 8 bytes: the upper seven are the caller's, the lowest is the last tape cell; memory above it is unchanged |
| Amd64Backend.ReturnsToCaller | codegen/x86_64-linux-gnu-codegen.rb:17 | `ret` goes back to the caller's return address exactly when the program leaves the last tape cell as it found it |
| Amd64Backend.LastCellOverwritesReturn | codegen/x86_64-linux-gnu-codegen.rb:17 | for a one-cell tape, storing any value other than the return address's low byte makes `ret` go elsewhere |
| Labels.LoopBeginLabels | codegen/arm-linux-gnueabihf-codegen.rb:52-59 | a loop begin defines exactly its begin label and branches only to its end label |
| Labels.LoopEndLabels | codegen/arm-linux-gnueabihf-codegen.rb:65-66 | a loop end defines exactly the popped end label and jumps only to the popped begin label |
| Labels.OtherLabels | codegen/arm-linux-gnueabihf-codegen.rb:26-47 | data, pointer, input and output tokens neither define nor reference a label |
| Labels.RunKeepsInv | codegen/codegen.rb:33-42 | after every prefix without underflow: stacked labels are begin/end pairs n, n+1, rising towards the top; definitions are distinct and numbered above the starting counter; references are to defined or pending end labels |
| Labels.LabelsWellFormed | codegen/codegen.rb:53-56 | for balanced nesting no label is defined twice, the labels defined are exactly the labels branched to, and all are numbered between the counter before and after the run |
| Labels.SuccessiveRunsDisjoint | codegen/codegen.rb:12 | a second gen_code on the same object starts from the counter the first left, so no label is defined by both |
| Text.ArmDataOpText | codegen/arm-linux-gnueabihf-codegen.rb:26-35 | nothing for zero; else `ldrb r5, [r4]` only if the flag was clear, then one `add`/`sub r5, #` with the amount's magnitude |
| Text.Amd64DataOpText | codegen/x86_64-linux-gnu-codegen.rb:25-34 | nothing for zero; else `movb (%rbx), %r12b` only if the flag was clear, then one `addb`/`subb $` with the magnitude on %r12b |
| Text.ArmPointerOpText | codegen/arm-linux-gnueabihf-codegen.rb:37-47 | nothing for zero; else `strb r5, [r4]` only if the flag was set, then one `add`/`sub r4, #` with the magnitude |
| Text.Amd64PointerOpText | codegen/x86_64-linux-gnu-codegen.rb:36-46 | nothing for zero; else `movb %r12b, (%rbx)` only if the flag was set, then one `addq`/`subq $` with the magnitude on %rbx |
| Text.ArmLoopBeginText | codegen/arm-linux-gnueabihf-codegen.rb:49-61 | a load only if the flag was clear, then `.Ln+1:`, `and r5, #255`, `cmp r5, #0`, `beq .Ln+2` |
| Text.Amd64LoopBeginText | codegen/x86_64-linux-gnu-codegen.rb:48-59 | a load only if the flag was clear, then `.Ln+1:`, `testb %r12b, %r12b`, `je .Ln+2` |
| Text.ArmLoopEndText | codegen/arm-linux-gnueabihf-codegen.rb:63-67 | a load only if the flag was clear, `b` to the popped begin label, the popped end label's definition |
| Text.Amd64LoopEndText | codegen/x86_64-linux-gnu-codegen.rb:61-65 | a load only if the flag was clear, `jmp` to the popped begin label, the popped end label's definition |
| Text.CharText | codegen/arm-linux-gnueabihf-codegen.rb:69-77 | putchar writes the target's store line only if the flag was set, then the output call; getchar writes only the input call |
| Machine.RestoreAgrees | codegen/x86_64-linux-gnu-codegen.rb:84-89 | from any state the cache promise holds in, a restore leaves the accumulator holding the current cell, memory untouched |
| Machine.SaveAgrees | codegen/x86_64-linux-gnu-codegen.rb:77-82 | a save leaves memory holding the current cell, the accumulator untouched |
| Machine.DataOpAgrees | codegen/x86_64-linux-gnu-codegen.rb:25-34 | a data operation's code keeps the cache promise: the accumulator stays the cell, which changes by the amount modulo 256 |
| Machine.PointerOpAgrees | codegen/x86_64-linux-gnu-codegen.rb:36-46 | a pointer move's code commits the cell before moving, so memory holds every cell afterwards |
| Machine.PutcharAgrees | codegen/x86_64-linux-gnu-codegen.rb:67-70 | the output routine reads memory, and the store before it makes memory hold the cell, so the byte written is the tape's |
| Machine.GetcharAgrees | codegen/x86_64-linux-gnu-codegen.rb:72-75 | clearing the flag without a store is sound: the input routine overwrites the cell in memory |
| Machine.StepAgrees | codegen/codegen.rb:34-41 | every non-loop token's code keeps the cache promise, with the flag the step leaves |
| Machine.RunAgrees | codegen/codegen.rb:33-42 | for a loop-free token list, the generated code agrees with the ideal tape after the whole run: same pointer, output and input position, every cell where the flag says it is |
| Machine.GenCodeOutput | codegen/codegen.rb:26-44 | from a zeroed accumulator and blank memory, which gen_code's initial flag presumes, a loop-free stream's code writes exactly the bytes the tape program writes |
| Machine.LoopHeadsAgree | codegen/x86_64-linux-gnu-codegen.rb:48-65 | at the begin label (and its zero test) and at the jump back to it, the accumulator holds the current cell, so the test is zero exactly when the cell is |
| Codegen.Codegen.constructor | codegen/codegen.rb:9-14 | counter 0, empty output, flag nil (false), stack size and target fixed |
| Codegen.Codegen.FreshLabel | codegen/codegen.rb:53-56 | the counter is incremented, then `.L` and the new counter value are returned |
| Codegen.Codegen.SaveRegisterIfChanged | codegen/arm-linux-gnueabihf-codegen.rb:79-84 | the state and output change as `GenSpec.SaveRegister` says |
| Codegen.Codegen.RestoreRegisterIfChanged | codegen/arm-linux-gnueabihf-codegen.rb:86-91 | the state and output change as `GenSpec.RestoreRegister` says |
| Codegen.Codegen.GenDataOp | codegen/arm-linux-gnueabihf-codegen.rb:26-35 | state and appended text as `GenSpec.DataOpStep` |
| Codegen.Codegen.GenPointerOp | codegen/arm-linux-gnueabihf-codegen.rb:37-47 | state and appended text as `GenSpec.PointerOpStep` |
| Codegen.Codegen.GenLoopBegin | codegen/arm-linux-gnueabihf-codegen.rb:49-61 | state and appended text as `GenSpec.LoopBeginStep`, the fields updated in the routine's own order |
| Codegen.Codegen.GenLoopEnd | codegen/arm-linux-gnueabihf-codegen.rb:63-67 | state and appended text as `GenSpec.LoopEndStep`, including the nil pop of an empty stack |
| Codegen.Codegen.GenPutchar | codegen/arm-linux-gnueabihf-codegen.rb:69-72 | state and appended text as `GenSpec.PutcharStep` |
| Codegen.Codegen.GenGetchar | codegen/arm-linux-gnueabihf-codegen.rb:74-77 | state and appended text as `GenSpec.GetcharStep` |
| Codegen.Codegen.GenPreamble | codegen/arm-linux-gnueabihf-codegen.rb:12-18 | the preamble file's text, then the target's preamble lines |
| Codegen.Codegen.GenPostamble | codegen/arm-linux-gnueabihf-codegen.rb:20-24 | the target's postamble lines |
| Codegen.Codegen.GenToken | codegen/codegen.rb:34-41 | one token dispatched: state and appended text as `GenSpec.Step` |
| Codegen.Codegen.GenTokens | codegen/codegen.rb:33-42 | the tokens in input order: state and appended text as `GenSpec.Run` |
| Codegen.Codegen.GenCode | codegen/codegen.rb:26-44 | the output grows by exactly the preamble, then the code of the tokens from the reset state, then the postamble; the state ends as the run leaves it |

## Left out

- `compile_executable` (codegen/codegen.rb:16-24) runs the assembler and linker and deletes files. These are process and file-system effects. `GenCode` models gen_code up to the postamble. In the source, `compile_executable` closes the output file, so a second `gen_code` on the same object fails at its first write. `Labels.SuccessiveRunsDisjoint` states only what the counter guarantees.
- Opening `out.s` in the backend constructors and reading `asm/<prefix>preamble.s` in gen_preamble are file I/O. The output file is the sequence `out`, one element per `puts`. The preamble file's text is a constructor parameter written as one element.
- The toolchain names `@as`/`@ld` and `@prefix` are used only by the parts left out.
- The token classes `DataArithmetic` and `PointerArithmetic` are defined outside these files. They are the `Token` datatype, and any other object in the stream is `Unrecognised`.
- The runtime routines `bfputchar`/`bfgetchar` are not part of this model. `Machine` assumes what their use implies: the output routine writes the byte in memory at the pointer, the input routine stores a byte there, and both keep the pointer and accumulator registers.
- Machine instructions are modelled abstractly. Register widths, assembler immediate-encoding limits and pointer overflow are not modelled. The code does not check them either.
- Machine.RunAgrees: covers loop-free token streams only. For loops the model proves the code's structure (`GenSpec.LoopStructure`, `Labels.LabelsWellFormed`) and the register's validity at both loop-head entry paths (`Machine.LoopHeadsAgree`), not a full execution of jumps.
- Machine.GenCodeOutput: starts from a zeroed accumulator and blank memory. The flag gen_code starts with presumes these, and whether the preamble file provides them is outside this model.
- ArmBackend.Lines, Amd64Backend.Lines: the contracts give only the line count. The exact text each routine writes is stated by the `Text` lemmas.
- Error behaviour on unbalanced loops: the code has none, so there is nothing to model.
- Amd64Backend.FrameRestored: does not promise that `ret` returns to the caller. `inc %rbx` (codegen/x86_64-linux-gnu-codegen.rb:17) starts the tape one byte above the stack pointer, so the last of the stack-size cells is the low byte of the return address. `Amd64Backend.ReturnsToCaller` states exactly when the return still works.
- The tape program's own effect on the frame is not modelled instruction by instruction. The frame lemmas take any pointer, link register and memory below the end of the tape that the program leaves. They take the stack pointer to be where the preamble left it, since every `bl`/`call` to a runtime routine returns with its stack released.
