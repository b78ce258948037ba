/**
 Why the register cache is sound. The tape program's meaning is given by an
 ideal tape of byte cells; the generated code runs on an abstract machine
 with a pointer register, an accumulator register and memory. The relation
 `Agrees` says what `@data_op` promises: with the flag set the accumulator
 holds the current cell (memory there may be stale), with the flag clear
 memory does; every other cell is always in memory. Every token's code
 keeps the relation, so for loop-free token streams the generated code
 writes exactly the bytes the ideal tape program writes. Both loop routines
 begin with a restore, so at each loop head (the label and zero test, and
 the jump back to it) the accumulator holds the current cell.
 */
module Machine {
  import opened Asm
  import opened GenSpec

  /** Cells are bytes; `AddCell` and `SubCell` wrap modulo 256. */
  const CellSize: int := 256

  /** A tape or memory: cells never written hold 0. */
  function Cell(cells: map<int, int>, a: int): int {
    if a in cells then cells[a] else 0
  }

  /** The ideal tape program: pointer, cells, bytes written, bytes read so far. */
  datatype Tape = Tape(ptr: int, cells: map<int, int>, output: seq<int>, inPos: nat)

  /** The bytes the input routine delivers, one per call. */
  type Input = nat -> int

  /** A token's meaning on the ideal tape; loops are not covered here. */
  function TokenStep(input: Input, t: Tape, tok: Token): (t': Tape)
    requires !tok.LoopBegin? && !tok.LoopEnd?
  {
    match tok
    case DataArith(n) => t.(cells := t.cells[t.ptr := (Cell(t.cells, t.ptr) + n) % CellSize])
    case PtrArith(n) => t.(ptr := t.ptr + n)
    case PutChar => t.(output := t.output + [Cell(t.cells, t.ptr)])
    case GetChar => t.(cells := t.cells[t.ptr := input(t.inPos) % CellSize], inPos := t.inPos + 1)
    case Unrecognised => t
  }

  /** No loop token. */
  predicate LoopFree(toks: seq<Token>) {
    forall k :: 0 <= k < |toks| ==> !toks[k].LoopBegin? && !toks[k].LoopEnd?
  }

  function TapeRun(input: Input, t: Tape, toks: seq<Token>): Tape
    requires LoopFree(toks)
    decreases |toks|
  {
    if toks == [] then t
    else TokenStep(input, TapeRun(input, t, toks[..|toks| - 1]), toks[|toks| - 1])
  }

  /** The target machine: pointer register, accumulator, memory, bytes written and read. */
  datatype Cpu = Cpu(ptr: int, acc: int, mem: map<int, int>, output: seq<int>, inPos: nat)

  /**
   One straight-line instruction. A store writes the accumulator's low byte
   (`strb`, and `movb` from the byte register); the output routine writes
   the byte in memory at the pointer, the input routine stores a byte there;
   both preserve the pointer and accumulator registers. Labels do nothing,
   and branches do not occur in loop-free code.
   */
  function Exec(input: Input, m: Cpu, i: Instr): Cpu {
    match i
    case Load => m.(acc := Cell(m.mem, m.ptr))
    case Store => m.(mem := m.mem[m.ptr := m.acc % CellSize])
    case AddCell(n) => m.(acc := m.acc + n)
    case SubCell(n) => m.(acc := m.acc - n)
    case AddPtr(n) => m.(ptr := m.ptr + n)
    case SubPtr(n) => m.(ptr := m.ptr - n)
    case CallPutchar => m.(output := m.output + [Cell(m.mem, m.ptr)])
    case CallGetchar => m.(mem := m.mem[m.ptr := input(m.inPos) % CellSize], inPos := m.inPos + 1)
    case _ => m
  }

  function ExecAll(input: Input, m: Cpu, code: seq<Instr>): Cpu
    decreases |code|
  {
    if code == [] then m else Exec(input, ExecAll(input, m, code[..|code| - 1]), code[|code| - 1])
  }

  lemma {:induction false} ExecAllAppend(input: Input, m: Cpu, a: seq<Instr>, b: seq<Instr>)
    ensures ExecAll(input, m, a + b) == ExecAll(input, ExecAll(input, m, a), b)
    decreases |b|
  {
    if b == [] {
      assert a + b == a;
    } else {
      assert (a + b)[..|a + b| - 1] == a + b[..|b| - 1];
      ExecAllAppend(input, m, a, b[..|b| - 1]);
    }
  }

  lemma ExecSingle(input: Input, m: Cpu, i: Instr)
    ensures ExecAll(input, m, [i]) == Exec(input, m, i)
  {
    assert [i][..0] == [];
  }

  /**
   What the cache flag promises: the registers and the streams agree with
   the tape; with the flag set the accumulator holds the current cell modulo
   256, with it clear memory does; every other cell is in memory.
   */
  ghost predicate Agrees(flag: bool, t: Tape, m: Cpu) {
    && m.ptr == t.ptr
    && m.output == t.output
    && m.inPos == t.inPos
    && (forall a :: a != t.ptr ==> Cell(m.mem, a) == Cell(t.cells, a))
    && (flag ==> m.acc % CellSize == Cell(t.cells, t.ptr))
    && (!flag ==> Cell(m.mem, t.ptr) == Cell(t.cells, t.ptr))
  }

  /** Every cell of the tape is a byte. */
  ghost predicate Bytes(t: Tape) {
    forall a :: 0 <= Cell(t.cells, a) < CellSize
  }

  lemma TokenStepBytes(input: Input, t: Tape, tok: Token)
    requires !tok.LoopBegin? && !tok.LoopEnd? && Bytes(t)
    ensures Bytes(TokenStep(input, t, tok))
  {
    var t' := TokenStep(input, t, tok);
    forall a
      ensures 0 <= Cell(t'.cells, a) < CellSize
    {
      if tok.GetChar? {
        CellUpdate(t.cells, t.ptr, a, input(t.inPos) % CellSize);
      } else if tok.DataArith? {
        CellUpdate(t.cells, t.ptr, a, (Cell(t.cells, t.ptr) + tok.amount) % CellSize);
      }
    }
  }

  lemma CellUpdate(cells: map<int, int>, p: int, a: int, v: int)
    ensures Cell(cells[p := v], a) == if a == p then v else Cell(cells, a)
  {
  }

  lemma ModAdd(x: int, n: int)
    ensures (x + n) % CellSize == (x % CellSize + n) % CellSize
  {
    var q := x / CellSize;
    assert x == CellSize * q + x % CellSize;
    assert x + n == CellSize * q + (x % CellSize + n);
    ModMultiple(q, x % CellSize + n);
  }

  lemma ModMultiple(q: int, y: int)
    ensures (CellSize * q + y) % CellSize == y % CellSize
  {
    var r := y % CellSize;
    var p := y / CellSize;
    assert y == CellSize * p + r;
    assert CellSize * q + y == CellSize * (q + p) + r;
  }

  /** A restore leaves the accumulator holding the current cell; memory is untouched. */
  lemma RestoreAgrees(input: Input, s: GenState, t: Tape, m: Cpu)
    requires Agrees(s.dataOp, t, m) && Bytes(t)
    ensures var m' := ExecAll(input, m, RestoreRegister(s).code);
      Agrees(true, t, m') && m'.mem == m.mem
  {
    if !s.dataOp {
      ExecSingle(input, m, Load);
    }
  }

  /** A save leaves memory holding the current cell. */
  lemma SaveAgrees(input: Input, s: GenState, t: Tape, m: Cpu)
    requires Agrees(s.dataOp, t, m)
    ensures var m' := ExecAll(input, m, SaveRegister(s).code);
      Agrees(false, t, m') && m'.acc == m.acc
  {
    if s.dataOp {
      ExecSingle(input, m, Store);
    }
  }

  lemma DataOpAgrees(input: Input, s: GenState, t: Tape, m: Cpu, n: int)
    requires Agrees(s.dataOp, t, m) && Bytes(t)
    ensures var e := DataOpStep(s, n);
      Agrees(e.st.dataOp, TokenStep(input, t, DataArith(n)), ExecAll(input, m, e.code))
  {
    var t' := TokenStep(input, t, DataArith(n));
    var v := (Cell(t.cells, t.ptr) + n) % CellSize;
    assert t'.cells == t.cells[t.ptr := v];
    forall a
      ensures Cell(t'.cells, a) == if a == t.ptr then v else Cell(t.cells, a)
    {
      CellUpdate(t.cells, t.ptr, a, v);
    }
    if n != 0 {
      DataOpNonzero(input, s, t, m, n);
    }
  }

  /** The accumulator takes the change, so it keeps holding the changed cell. */
  lemma DataOpNonzero(input: Input, s: GenState, t: Tape, m: Cpu, n: int)
    requires Agrees(s.dataOp, t, m) && Bytes(t) && n != 0
    ensures var m' := ExecAll(input, m, DataOpStep(s, n).code);
      && m'.acc % CellSize == (Cell(t.cells, t.ptr) + n) % CellSize
      && m'.mem == m.mem && m'.ptr == m.ptr && m'.output == m.output && m'.inPos == m.inPos
  {
    var r := RestoreRegister(s).code;
    var i := if n < 0 then SubCell(-n) else AddCell(n);
    RestoreAgrees(input, s, t, m);
    var m1 := ExecAll(input, m, r);
    ExecAllAppend(input, m, r, [i]);
    ExecSingle(input, m1, i);
    ModAdd(m1.acc, n);
  }

  lemma PointerOpAgrees(input: Input, s: GenState, t: Tape, m: Cpu, n: int)
    requires Agrees(s.dataOp, t, m)
    ensures var e := PointerOpStep(s, n);
      Agrees(e.st.dataOp, TokenStep(input, t, PtrArith(n)), ExecAll(input, m, e.code))
  {
    if n != 0 {
      var r := SaveRegister(s).code;
      var i := if n < 0 then SubPtr(-n) else AddPtr(n);
      SaveAgrees(input, s, t, m);
      var m1 := ExecAll(input, m, r);
      ExecAllAppend(input, m, r, [i]);
      ExecSingle(input, m1, i);
    }
  }

  lemma PutcharAgrees(input: Input, s: GenState, t: Tape, m: Cpu)
    requires Agrees(s.dataOp, t, m)
    ensures var e := PutcharStep(s);
      Agrees(e.st.dataOp, TokenStep(input, t, PutChar), ExecAll(input, m, e.code))
  {
    var r := SaveRegister(s).code;
    SaveAgrees(input, s, t, m);
    var m1 := ExecAll(input, m, r);
    ExecAllAppend(input, m, r, [CallPutchar]);
    ExecSingle(input, m1, CallPutchar);
  }

  /** No store before the input routine: it overwrites the cell anyway. */
  lemma GetcharAgrees(input: Input, s: GenState, t: Tape, m: Cpu)
    requires Agrees(s.dataOp, t, m)
    ensures var e := GetcharStep(s);
      Agrees(e.st.dataOp, TokenStep(input, t, GetChar), ExecAll(input, m, e.code))
  {
    ExecSingle(input, m, CallGetchar);
    var v := input(t.inPos) % CellSize;
    var t', m' := TokenStep(input, t, GetChar), Exec(input, m, CallGetchar);
    assert m'.mem == m.mem[m.ptr := v] && t'.cells == t.cells[t.ptr := v];
    forall a
      ensures Cell(m'.mem, a) == Cell(t'.cells, a)
    {
      CellUpdate(m.mem, m.ptr, a, v);
      CellUpdate(t.cells, t.ptr, a, v);
    }
  }

  /** Each token's code keeps the cache promise. */
  lemma StepAgrees(input: Input, s: GenState, t: Tape, m: Cpu, tok: Token)
    requires !tok.LoopBegin? && !tok.LoopEnd?
    requires Agrees(s.dataOp, t, m) && Bytes(t)
    ensures var e := Step(s, tok);
      Agrees(e.st.dataOp, TokenStep(input, t, tok), ExecAll(input, m, e.code))
  {
    match tok
    case DataArith(n) => DataOpAgrees(input, s, t, m, n);
    case PtrArith(n) => PointerOpAgrees(input, s, t, m, n);
    case PutChar => PutcharAgrees(input, s, t, m);
    case GetChar => GetcharAgrees(input, s, t, m);
    case Unrecognised =>
  }

  /**
   Cache correctness for loop-free token streams: started from a machine
   that agrees with the tape, the generated code keeps agreeing with it
   after every token, so it writes the same bytes and reads as many.
   */
  lemma {:induction false} RunAgrees(input: Input, s: GenState, t: Tape, m: Cpu, toks: seq<Token>)
    requires LoopFree(toks)
    requires Agrees(s.dataOp, t, m) && Bytes(t)
    ensures var e := Run(s, toks);
      && Agrees(e.st.dataOp, TapeRun(input, t, toks), ExecAll(input, m, e.code))
      && Bytes(TapeRun(input, t, toks))
    decreases |toks|
  {
    if toks != [] {
      var init, tok := toks[..|toks| - 1], toks[|toks| - 1];
      assert LoopFree(init);
      RunAgrees(input, s, t, m, init);
      var p := Run(s, init);
      var ti := TapeRun(input, t, init);
      var q := Step(p.st, tok);
      assert Run(s, toks) == Emission(q.st, p.code + q.code);
      ExecAllAppend(input, m, p.code, q.code);
      StepAgrees(input, p.st, ti, ExecAll(input, m, p.code), tok);
      TokenStepBytes(input, ti, tok);
    }
  }

  /** The zero tape. */
  function Blank(): Tape {
    Tape(0, map[], [], 0)
  }

  /**
   gen_code starts with the flag set, which promises that the accumulator
   already holds the first cell: from a zeroed accumulator and blank
   memory, the code of a loop-free stream writes what the tape program
   writes.
   */
  lemma GenCodeOutput(input: Input, c0: nat, toks: seq<Token>)
    requires LoopFree(toks)
    ensures ExecAll(input, Cpu(0, 0, map[], [], 0), Run(Start(c0), toks).code).output
            == TapeRun(input, Blank(), toks).output
  {
    RunAgrees(input, Start(c0), Blank(), Cpu(0, 0, map[], [], 0), toks);
  }

  /**
   At a loop head the accumulator holds the current cell: at the begin
   label (and so at the zero test after it), and at the jump back to an
   enclosing begin label, whatever the flag was before the loop routine.
   So the zero test sees the cell's true value on both paths into it.
   */
  lemma LoopHeadsAgree(input: Input, s: GenState, t: Tape, m: Cpu)
    requires Agrees(s.dataOp, t, m) && Bytes(t)
    ensures var code := LoopBeginStep(s).code;
      var k := |code| - 2;
      && code[k].Label? && code[k + 1].BranchIfZero?
      && Agrees(true, t, ExecAll(input, m, code[..k]))
      && (ExecAll(input, m, code[..k]).acc % CellSize == 0 <==> Cell(t.cells, t.ptr) == 0)
    ensures var code := LoopEndStep(s).code;
      var k := |code| - 2;
      && code[k].Jump?
      && Agrees(true, t, ExecAll(input, m, code[..k]))
  {
    RestoreAgrees(input, s, t, m);
    var r := RestoreRegister(s).code;
    var b := LoopBeginStep(s).code;
    assert b[..|b| - 2] == r;
    var e := LoopEndStep(s).code;
    assert e[..|e| - 2] == r;
  }
}
