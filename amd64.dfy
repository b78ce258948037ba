/**
 The x86_64 backend (codegen/x86_64-linux-gnu-codegen.rb): the text each
 abstract instruction and frame operation becomes. The tape pointer lives
 in %rbx, the cached cell in the byte register %r12b, whose 8-bit
 arithmetic truncates the cell by itself.
 */
module Amd64Backend {
  import opened Asm
  import opened Decimal

  /** An AT&T immediate operand, `$n`. */
  function Immediate(n: int): string {
    "$" + IntToString(n)
  }

  function Lines(i: Instr): (lines: seq<string>)
    ensures |lines| == if i.BranchIfZero? then 2 else 1
  {
    match i
    case Load => ["\tmovb\t(%rbx), %r12b"]
    case Store => ["\tmovb\t%r12b, (%rbx)"]
    case AddCell(n) => ["\taddb\t" + Immediate(n) + ", %r12b"]
    case SubCell(n) => ["\tsubb\t" + Immediate(n) + ", %r12b"]
    case AddPtr(n) => ["\taddq\t" + Immediate(n) + ", %rbx"]
    case SubPtr(n) => ["\tsubq\t" + Immediate(n) + ", %rbx"]
    case Label(l) => [l + ":"]
    case BranchIfZero(l) => ["\ttestb\t%r12b, %r12b", "\tje\t" + l]
    case Jump(l) => ["\tjmp\t" + l]
    case CallPutchar => ["\tcall\tbfputchar"]
    case CallGetchar => ["\tcall\tbfgetchar"]
  }

  /** The frame operations this backend has an instruction for (no link register). */
  predicate HasFrameOp(op: FrameOp) {
    !op.PushLr? && !op.PopLr? && !op.BranchLr?
  }

  function FrameLine(op: FrameOp): string
    requires HasFrameOp(op)
  {
    match op
    case SubSp(n) => "\tsubq\t" + Immediate(n) + ", %rsp"
    case AddSp(n) => "\taddq\t" + Immediate(n) + ", %rsp"
    case PointerAtSp => "\tmovq\t%rsp, %rbx"
    case IncPointer => "\tinc %rbx"
    case Ret => "\tret"
  }

  function PreambleOps(stackSize: int): seq<FrameOp> {
    [SubSp(stackSize), PointerAtSp, IncPointer]
  }

  function PostambleOps(stackSize: int): seq<FrameOp> {
    [AddSp(stackSize), Ret]
  }

  /** The lines gen_preamble puts after the preamble file's text. */
  function Preamble(stackSize: int): (lines: seq<string>)
    ensures |lines| == 1 + |PreambleOps(stackSize)|
    ensures lines[0] == "bfmain:"
    ensures forall k :: 1 <= k < |lines| ==> lines[k] == FrameLine(PreambleOps(stackSize)[k - 1])
  {
    ["bfmain:", FrameLine(SubSp(stackSize)), FrameLine(PointerAtSp), FrameLine(IncPointer)]
  }

  function Postamble(stackSize: int): (lines: seq<string>)
    ensures |lines| == |PostambleOps(stackSize)|
    ensures forall k :: 0 <= k < |lines| ==> lines[k] == FrameLine(PostambleOps(stackSize)[k])
  {
    [FrameLine(AddSp(stackSize)), FrameLine(Ret)]
  }

  lemma PreambleEffect(stackSize: int, m0: FrameState)
    ensures RunFrame(m0, PreambleOps(stackSize))
         == m0.(sp := m0.sp - stackSize, ptr := m0.sp - stackSize + 1)
  {
    RunFrameCons(m0, SubSp(stackSize), [PointerAtSp, IncPointer]);
    RunFrameCons(FrameStep(m0, SubSp(stackSize)), PointerAtSp, [IncPointer]);
    RunFrameCons(FrameStep(FrameStep(m0, SubSp(stackSize)), PointerAtSp), IncPointer, []);
  }

  lemma PostambleEffect(stackSize: int, b: FrameState)
    ensures RunFrame(b, PostambleOps(stackSize))
         == b.(sp := b.sp + stackSize + AddressSize, target := ReturnBytes(b.mem, b.sp + stackSize))
  {
    RunFrameCons(b, AddSp(stackSize), [Ret]);
    RunFrameCons(FrameStep(b, AddSp(stackSize)), Ret, []);
  }

  /**
   After the preamble the pointer register is one past the new stack
   pointer, so a tape of `stackSize` cells from the pointer ends AT the
   caller's stack pointer: its last cell is the low byte of the return
   address `call` left there. Whatever the tape program does to the
   pointer register, and to memory below the end of the tape, the
   postamble puts the stack pointer back and `ret` pops the 8 bytes
   there: the upper seven are the caller's, the lowest is whatever the
   program left in the last cell.
   */
  lemma FrameRestored(stackSize: int, m0: FrameState, bodyPtr: int, bodyMem: map<int, int>)
    requires KeepsFrom(RunFrame(m0, PreambleOps(stackSize)).mem, bodyMem,
                       RunFrame(m0, PreambleOps(stackSize)).ptr + stackSize)
    ensures var m1 := RunFrame(m0, PreambleOps(stackSize));
      && m1.sp == m0.sp - stackSize
      && m1.ptr == m1.sp + 1
      && m1.ptr + stackSize - 1 == m0.sp
      && m1.mem == m0.mem
      && var m2 := RunFrame(m1.(ptr := bodyPtr, mem := bodyMem), PostambleOps(stackSize));
      && m2.sp == m0.sp + AddressSize
      && |m2.target| == AddressSize
      && m2.target[0] == At(bodyMem, m0.sp)
      && m2.target[1..] == ReturnBytes(m0.mem, m0.sp)[1..]
      && forall a :: m0.sp < a ==> At(m2.mem, a) == At(m0.mem, a)
  {
    PreambleEffect(stackSize, m0);
    var m1 := RunFrame(m0, PreambleOps(stackSize));
    PostambleReturns(stackSize, m0, m1.(ptr := bodyPtr, mem := bodyMem));
  }

  /**
   So `ret` goes back to the caller exactly when the tape program leaves
   the last tape cell (the return address's low byte) as it found it.
   */
  lemma ReturnsToCaller(stackSize: int, m0: FrameState, bodyPtr: int, bodyMem: map<int, int>)
    requires KeepsFrom(RunFrame(m0, PreambleOps(stackSize)).mem, bodyMem,
                       RunFrame(m0, PreambleOps(stackSize)).ptr + stackSize)
    ensures var m1 := RunFrame(m0, PreambleOps(stackSize));
      var m2 := RunFrame(m1.(ptr := bodyPtr, mem := bodyMem), PostambleOps(stackSize));
      m2.target == ReturnBytes(m0.mem, m0.sp) <==> At(bodyMem, m0.sp) == At(m0.mem, m0.sp)
  {
    PreambleEffect(stackSize, m0);
    var m1 := RunFrame(m0, PreambleOps(stackSize));
    PostambleReturns(stackSize, m0, m1.(ptr := bodyPtr, mem := bodyMem));
  }

  /** The postamble run on any state whose stack pointer is the preamble's and whose memory above the caller's stack pointer is the caller's. */
  lemma PostambleReturns(stackSize: int, m0: FrameState, b: FrameState)
    requires b.sp == m0.sp - stackSize
    requires KeepsFrom(m0.mem, b.mem, m0.sp + 1)
    ensures var m2 := RunFrame(b, PostambleOps(stackSize));
      && m2.sp == m0.sp + AddressSize
      && |m2.target| == AddressSize
      && m2.target[0] == At(b.mem, m0.sp)
      && m2.target[1..] == ReturnBytes(m0.mem, m0.sp)[1..]
      && (m2.target == ReturnBytes(m0.mem, m0.sp) <==> At(b.mem, m0.sp) == At(m0.mem, m0.sp))
      && forall a :: m0.sp < a ==> At(m2.mem, a) == At(m0.mem, a)
  {
    PostambleEffect(stackSize, b);
    var t, r := ReturnBytes(b.mem, m0.sp), ReturnBytes(m0.mem, m0.sp);
    forall k | 0 < k < AddressSize
      ensures t[k] == r[k]
    {
      assert At(b.mem, m0.sp + k) == At(m0.mem, m0.sp + k);
    }
    assert t[1..] == r[1..];
    if t[0] == r[0] {
      assert t == [t[0]] + t[1..];
      assert r == [r[0]] + r[1..];
    }
  }

  /**
   For instance, a single-cell tape that the program sets to a value other
   than the return address's low byte sends `ret` somewhere else.
   */
  lemma LastCellOverwritesReturn(m0: FrameState, v: int)
    requires v != At(m0.mem, m0.sp)
    ensures var m1 := RunFrame(m0, PreambleOps(1));
      var m2 := RunFrame(m1.(mem := m1.mem[m1.ptr := v]), PostambleOps(1));
      m2.target != ReturnBytes(m0.mem, m0.sp)
  {
    var m1 := RunFrame(m0, PreambleOps(1));
    FrameRestored(1, m0, m1.ptr, m1.mem[m1.ptr := v]);
    ReturnsToCaller(1, m0, m1.ptr, m1.mem[m1.ptr := v]);
  }
}
