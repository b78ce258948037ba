/**
 The architecture-independent vocabulary shared by the code generator and
 its two backends: which target is selected, the abstract instructions the
 generator emits for the tape program, and the frame operations the
 preamble and postamble consist of.
 */
module Asm {

  /** The two targets: GnuLinuxArmHfCodegen and GnuLinuxAmd64Codegen. */
  datatype Arch = ArmHf | Amd64

  /**
   One instruction of the generated tape program, before a backend renders
   it. `AddCell`/`SubCell` act on the accumulator register (r5, %r12b),
   `AddPtr`/`SubPtr` on the pointer register (r4, %rbx); `Load` and `Store`
   move the current cell between memory and the accumulator. Label names
   are kept as the text the generator produced for them.
   */
  datatype Instr =
    | Load
    | Store
    | AddCell(n: nat)
    | SubCell(n: nat)
    | AddPtr(n: nat)
    | SubPtr(n: nat)
    | Label(name: string)
    | BranchIfZero(target: string)
    | Jump(target: string)
    | CallPutchar
    | CallGetchar

  /** Number of loads from the current cell into the accumulator. */
  function Loads(code: seq<Instr>): nat {
    if code == [] then 0 else Loads(code[..|code| - 1]) + (if code[|code| - 1] == Load then 1 else 0)
  }

  /** Number of stores of the accumulator into the current cell. */
  function Stores(code: seq<Instr>): nat {
    if code == [] then 0 else Stores(code[..|code| - 1]) + (if code[|code| - 1] == Store then 1 else 0)
  }

  /** The counts of code of one or two instructions. */
  lemma ShortCounts(i: Instr, j: Instr)
    ensures Loads([i]) == (if i == Load then 1 else 0) && Stores([i]) == (if i == Store then 1 else 0)
    ensures Loads([i, j]) == Loads([i]) + (if j == Load then 1 else 0)
    ensures Stores([i, j]) == Stores([i]) + (if j == Store then 1 else 0)
  {
    assert [i][..0] == [];
    assert [i, j][..1] == [i];
  }

  lemma {:induction false} LoadsAppend(a: seq<Instr>, b: seq<Instr>)
    ensures Loads(a + b) == Loads(a) + Loads(b)
    decreases |b|
  {
    if b == [] {
      assert a + b == a;
    } else {
      assert (a + b)[..|a + b| - 1] == a + b[..|b| - 1];
      LoadsAppend(a, b[..|b| - 1]);
    }
  }

  lemma {:induction false} StoresAppend(a: seq<Instr>, b: seq<Instr>)
    ensures Stores(a + b) == Stores(a) + Stores(b)
    decreases |b|
  {
    if b == [] {
      assert a + b == a;
    } else {
      assert (a + b)[..|a + b| - 1] == a + b[..|b| - 1];
      StoresAppend(a, b[..|b| - 1]);
    }
  }

  /** The labels the code defines, in order of definition. */
  function Defs(code: seq<Instr>): seq<string> {
    if code == [] then []
    else Defs(code[..|code| - 1]) + (if code[|code| - 1].Label? then [code[|code| - 1].name] else [])
  }

  /** The labels the code branches to. */
  function Refs(code: seq<Instr>): set<string>
    decreases |code|
  {
    if code == [] then {}
    else
      var last := code[|code| - 1];
      var rs := Refs(code[..|code| - 1]);
      if last.BranchIfZero? || last.Jump? then rs + {last.target} else rs
  }

  lemma {:induction false} DefsAppend(a: seq<Instr>, b: seq<Instr>)
    ensures Defs(a + b) == Defs(a) + Defs(b)
    decreases |b|
  {
    if b == [] {
      assert a + b == a;
    } else {
      assert (a + b)[..|a + b| - 1] == a + b[..|b| - 1];
      DefsAppend(a, b[..|b| - 1]);
    }
  }

  lemma {:induction false} RefsAppend(a: seq<Instr>, b: seq<Instr>)
    ensures Refs(a + b) == Refs(a) + Refs(b)
    decreases |b|
  {
    if b == [] {
      assert a + b == a;
    } else {
      assert (a + b)[..|a + b| - 1] == a + b[..|b| - 1];
      RefsAppend(a, b[..|b| - 1]);
    }
  }

  lemma SnocTwice(code: seq<Instr>, i: Instr, j: Instr)
    ensures code + [i] + [j] == code + [i, j]
  {
  }

  /** No label text occurs twice in `ds`. */
  predicate Distinct(ds: seq<string>) {
    forall j, k :: 0 <= j < k < |ds| ==> ds[j] != ds[k]
  }

  /**
   The operations of the fixed frame set-up and tear-down around the
   generated tape program.
   */
  datatype FrameOp =
    | PushLr           // `push {lr}`: store the link register in the word below sp (ARM only)
    | PopLr            // `pop {lr}`: load the link register from the word at sp (ARM only)
    | SubSp(n: int)    // reserve n bytes of stack for the tape
    | AddSp(n: int)    // release them
    | PointerAtSp      // pointer register := stack pointer
    | IncPointer       // pointer register := pointer register + 1 (x86_64 only)
    | BranchLr         // `bx lr`: return to the address in the link register (ARM only)
    | Ret              // `ret`: pop the return address at sp and return to it (x86_64 only)

  /**
   What the frame operations act on: the stack pointer, the tape pointer
   register, the link register, the stack memory, and the return target
   once the function has returned (empty before). Memory maps an address
   to the value stored there: a tape cell or x86_64 return-address byte
   per byte address, ARM's saved link register as one entry at the
   address of its word. Unwritten addresses read as 0.
   */
  datatype FrameState = FrameState(sp: int, ptr: int, lr: int, mem: map<int, int>, target: seq<int>)

  function At(mem: map<int, int>, a: int): int {
    if a in mem then mem[a] else 0
  }

  /** ARM pushes and pops one 4-byte word for the link register. */
  const WordSize: int := 4

  /** An x86_64 return address: 8 bytes, least significant first. */
  const AddressSize: int := 8

  /** The bytes of the return address stored at `a`. */
  function ReturnBytes(mem: map<int, int>, a: int): (r: seq<int>)
    ensures |r| == AddressSize
    ensures forall k :: 0 <= k < AddressSize ==> r[k] == At(mem, a + k)
  {
    seq(AddressSize, k => At(mem, a + k))
  }

  function FrameStep(m: FrameState, op: FrameOp): FrameState {
    match op
    case PushLr => m.(sp := m.sp - WordSize, mem := m.mem[m.sp - WordSize := m.lr])
    case PopLr => m.(sp := m.sp + WordSize, lr := At(m.mem, m.sp))
    case SubSp(n) => m.(sp := m.sp - n)
    case AddSp(n) => m.(sp := m.sp + n)
    case PointerAtSp => m.(ptr := m.sp)
    case IncPointer => m.(ptr := m.ptr + 1)
    case BranchLr => m.(target := [m.lr])
    case Ret => m.(sp := m.sp + AddressSize, target := ReturnBytes(m.mem, m.sp))
  }

  function RunFrame(m: FrameState, ops: seq<FrameOp>): FrameState
    decreases |ops|
  {
    if ops == [] then m else RunFrame(FrameStep(m, ops[0]), ops[1..])
  }

  lemma RunFrameCons(m: FrameState, op: FrameOp, ops: seq<FrameOp>)
    ensures RunFrame(m, [op] + ops) == RunFrame(FrameStep(m, op), ops)
  {
    assert ([op] + ops)[1..] == ops;
  }

  /**
   What the tape program may do to memory: anything below `top`, the end of
   the tape (its own cells, and the stack its calls to the runtime routines
   use below the stack pointer); from `top` up, memory stays as it was.
   */
  ghost predicate KeepsFrom(before: map<int, int>, after: map<int, int>, top: int) {
    forall a :: top <= a ==> At(after, a) == At(before, a)
  }
}
