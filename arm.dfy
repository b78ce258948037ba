/**
 The ARM hard-float backend (codegen/arm-linux-gnueabihf-codegen.rb): the
 text each abstract instruction and frame operation becomes. The tape
 pointer lives in r4, the cached cell in r5; the link register is saved
 around the frame because `bl` calls to the I/O routines overwrite it.
 */
module ArmBackend {
  import opened Asm
  import opened Decimal

  /** An ARM immediate operand, `#n`. */
  function Immediate(n: int): string {
    "#" + IntToString(n)
  }

  function Lines(i: Instr): (lines: seq<string>)
    ensures |lines| == if i.BranchIfZero? then 3 else 1
  {
    match i
    case Load => ["\tldrb\tr5, [r4]"]
    case Store => ["\tstrb\tr5, [r4]"]
    case AddCell(n) => ["\tadd\tr5, " + Immediate(n)]
    case SubCell(n) => ["\tsub\tr5, " + Immediate(n)]
    case AddPtr(n) => ["\tadd\tr4, " + Immediate(n)]
    case SubPtr(n) => ["\tsub\tr4, " + Immediate(n)]
    case Label(l) => [l + ":"]
    // the cell is masked to its low byte before the zero test
    case BranchIfZero(l) => ["\tand\tr5, #255", "\tcmp\tr5, #0", "\tbeq " + l]
    case Jump(l) => ["\tb\t" + l]
    case CallPutchar => ["\tbl\tbfputchar"]
    case CallGetchar => ["\tbl\tbfgetchar"]
  }

  /** The frame operations this backend has an instruction for. */
  predicate HasFrameOp(op: FrameOp) {
    !op.IncPointer? && !op.Ret?
  }

  function FrameLine(op: FrameOp): string
    requires HasFrameOp(op)
  {
    match op
    case PushLr => "\tpush\t{lr}"
    case PopLr => "\tpop\t{lr}"
    case SubSp(n) => "\tsub\tsp, " + Immediate(n)
    case AddSp(n) => "\tadd\tsp, " + Immediate(n)
    case PointerAtSp => "\tmov\tr4, sp"
    case BranchLr => "\tbx\tlr"
  }

  function PreambleOps(stackSize: int): seq<FrameOp> {
    [PushLr, SubSp(stackSize), PointerAtSp]
  }

  function PostambleOps(stackSize: int): seq<FrameOp> {
    [AddSp(stackSize), PopLr, BranchLr]
  }

  /** The lines gen_preamble puts after the preamble file's text. */
  function Preamble(stackSize: int): (lines: seq<string>)
    ensures |lines| == 1 + |PreambleOps(stackSize)|
    ensures lines[0] == "bfmain:"
    ensures forall k :: 1 <= k < |lines| ==> lines[k] == FrameLine(PreambleOps(stackSize)[k - 1])
  {
    ["bfmain:", FrameLine(PushLr), FrameLine(SubSp(stackSize)), FrameLine(PointerAtSp)]
  }

  function Postamble(stackSize: int): (lines: seq<string>)
    ensures |lines| == |PostambleOps(stackSize)|
    ensures forall k :: 0 <= k < |lines| ==> lines[k] == FrameLine(PostambleOps(stackSize)[k])
  {
    [FrameLine(AddSp(stackSize)), FrameLine(PopLr), FrameLine(BranchLr)]
  }

  lemma PreambleEffect(stackSize: int, m0: FrameState)
    ensures RunFrame(m0, PreambleOps(stackSize))
         == m0.(sp := m0.sp - WordSize - stackSize, ptr := m0.sp - WordSize - stackSize,
                mem := m0.mem[m0.sp - WordSize := m0.lr])
  {
    RunFrameCons(m0, PushLr, [SubSp(stackSize), PointerAtSp]);
    RunFrameCons(FrameStep(m0, PushLr), SubSp(stackSize), [PointerAtSp]);
    RunFrameCons(FrameStep(FrameStep(m0, PushLr), SubSp(stackSize)), PointerAtSp, []);
  }

  lemma PostambleEffect(stackSize: int, b: FrameState)
    ensures RunFrame(b, PostambleOps(stackSize))
         == b.(sp := b.sp + stackSize + WordSize, lr := At(b.mem, b.sp + stackSize),
               target := [At(b.mem, b.sp + stackSize)])
  {
    RunFrameCons(b, AddSp(stackSize), [PopLr, BranchLr]);
    RunFrameCons(FrameStep(b, AddSp(stackSize)), PopLr, [BranchLr]);
    RunFrameCons(FrameStep(FrameStep(b, AddSp(stackSize)), PopLr), BranchLr, []);
  }

  /**
   Right after the preamble the pointer register is the new stack pointer,
   and a tape of `stackSize` cells from it ends just below the word that
   holds the caller's link register.
   */
  lemma PreambleFrame(stackSize: int, m0: FrameState)
    ensures var m1 := RunFrame(m0, PreambleOps(stackSize));
      && m1.sp == m0.sp - WordSize - stackSize
      && m1.ptr == m1.sp
      && m1.ptr + stackSize == m0.sp - WordSize
      && At(m1.mem, m0.sp - WordSize) == m0.lr
  {
    PreambleEffect(stackSize, m0);
  }

  /** The postamble run on any state whose stack pointer is the preamble's and whose memory from the saved word up is the preamble's. */
  lemma PostambleReloads(stackSize: int, m0: FrameState, b: FrameState)
    requires b.sp == m0.sp - WordSize - stackSize
    requires KeepsFrom(m0.mem[m0.sp - WordSize := m0.lr], b.mem, m0.sp - WordSize)
    ensures var m2 := RunFrame(b, PostambleOps(stackSize));
      && m2.sp == m0.sp
      && m2.lr == m0.lr
      && m2.target == [m0.lr]
      && forall a :: m0.sp <= a ==> At(m2.mem, a) == At(m0.mem, a)
  {
    PostambleEffect(stackSize, b);
    assert At(b.mem, m0.sp - WordSize) == m0.lr;
    forall a | m0.sp <= a
      ensures At(b.mem, a) == At(m0.mem, a)
    {
      assert At(b.mem, a) == At(m0.mem[m0.sp - WordSize := m0.lr], a);
    }
  }

  /**
   The postamble undoes the preamble. Right after the preamble the pointer
   register is the new stack pointer and a tape of `stackSize` cells from
   it ends just below the word that holds the saved link register. So for
   any tape program that changes the pointer register and the link
   register (each `bl` overwrites lr) however it likes, and memory only
   below the end of the tape, the postamble brings the stack pointer back, reloads
   the caller's link register from its stack word, returns to it with
   `bx lr`, and leaves the caller's stack memory as it was.
   */
  lemma FrameRestored(stackSize: int, m0: FrameState, bodyPtr: int, bodyLr: int, bodyMem: map<int, int>)
    requires KeepsFrom(RunFrame(m0, PreambleOps(stackSize)).mem, bodyMem,
                       RunFrame(m0, PreambleOps(stackSize)).ptr + stackSize)
    ensures var m1 := RunFrame(m0, PreambleOps(stackSize));
      var m2 := RunFrame(m1.(ptr := bodyPtr, lr := bodyLr, mem := bodyMem), PostambleOps(stackSize));
      && m2.sp == m0.sp
      && m2.lr == m0.lr
      && m2.target == [m0.lr]
      && forall a :: m0.sp <= a ==> At(m2.mem, a) == At(m0.mem, a)
  {
    PreambleEffect(stackSize, m0);
    var m1 := RunFrame(m0, PreambleOps(stackSize));
    PostambleReloads(stackSize, m0, m1.(ptr := bodyPtr, lr := bodyLr, mem := bodyMem));
  }
}
