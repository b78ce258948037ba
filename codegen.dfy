/**
 The code generator object (class Codegen of codegen/codegen.rb together
 with the backend subclass chosen at construction). Its fields are updated
 in place exactly as the Ruby instance variables are; every routine is
 proved to do what the corresponding GenSpec function describes, so the
 properties proved there and in Labels hold of what the object writes.
 */
module Codegen {
  import opened Asm
  import opened GenSpec
  import Backend

  class Codegen {
    /** The backend subclass: GnuLinuxArmHfCodegen or GnuLinuxAmd64Codegen. */
    const arch: Arch
    /** `@stack_size`: the bytes of stack reserved for the tape. */
    const stackSize: int
    /** The text of the backend's preamble file, copied to the output first. */
    const preambleText: string

    /** `@asmout`: one element per `puts`, the preamble file's text one element. */
    var out: seq<string>
    /** `@data_op`. */
    var dataOp: bool
    /** `@label_number`. */
    var labelNumber: nat
    /** `@begin_label_stack` and `@end_label_stack`, top last. */
    var beginLabelStack: seq<string>
    var endLabelStack: seq<string>

    /** The generation state as the `GenSpec` functions see it. */
    function State(): GenState
      reads this
    {
      GenState(dataOp, labelNumber, beginLabelStack, endLabelStack)
    }

    /**
     `initialize`: the counter starts at 0 and nothing is written yet.
     `@data_op` is not assigned, so it is nil, which Ruby treats as false.
     */
    constructor (arch: Arch, stackSize: int, preambleText: string)
      ensures this.arch == arch && this.stackSize == stackSize && this.preambleText == preambleText
      ensures out == [] && labelNumber == 0 && !dataOp
      ensures beginLabelStack == [] && endLabelStack == []
    {
      this.arch := arch;
      this.stackSize := stackSize;
      this.preambleText := preambleText;
      out := [];
      dataOp := false;
      labelNumber := 0;
      beginLabelStack := [];
      endLabelStack := [];
    }

    /** `@asmout.puts` of the lines the backend writes for one instruction. */
    method Emit(i: Instr)
      modifies this`out
      ensures out == old(out) + Backend.Lines(arch, i)
    {
      out := out + Backend.Lines(arch, i);
    }

    /** fresh_label: the counter is incremented first, so the first label is `.L1`. */
    method FreshLabel() returns (name: string)
      modifies this`labelNumber
      ensures labelNumber == old(labelNumber) + 1
      ensures name == LabelName(labelNumber)
    {
      labelNumber := labelNumber + 1;
      name := ".L" + Decimal.NatToString(labelNumber);
    }

    method SaveRegisterIfChanged()
      modifies this`out, this`dataOp
      ensures State() == SaveRegister(old(State())).st
      ensures out == old(out) + Backend.RenderAll(arch, SaveRegister(old(State())).code)
    {
      if dataOp {
        Emit(Store);
        dataOp := false;
      }
    }

    method RestoreRegisterIfChanged()
      modifies this`out, this`dataOp
      ensures State() == RestoreRegister(old(State())).st
      ensures out == old(out) + Backend.RenderAll(arch, RestoreRegister(old(State())).code)
    {
      if !dataOp {
        Emit(Load);
        dataOp := true;
      }
    }

    method GenDataOp(amount: int)
      modifies this`out, this`dataOp
      ensures State() == DataOpStep(old(State()), amount).st
      ensures out == old(out) + Backend.RenderAll(arch, DataOpStep(old(State()), amount).code)
    {
      if amount == 0 {
        return;
      }
      ghost var s, o := State(), out;
      RestoreRegisterIfChanged();
      ghost var mid := out;
      var i := if amount < 0 then SubCell(-amount) else AddCell(amount);
      Emit(i);
      EmitExtends(RestoreRegister(s).code, i, o, mid, out);
    }

    method GenPointerOp(amount: int)
      modifies this`out, this`dataOp
      ensures State() == PointerOpStep(old(State()), amount).st
      ensures out == old(out) + Backend.RenderAll(arch, PointerOpStep(old(State()), amount).code)
    {
      if amount == 0 {
        return;
      }
      ghost var s, o := State(), out;
      SaveRegisterIfChanged();
      ghost var mid := out;
      var i := if amount < 0 then SubPtr(-amount) else AddPtr(amount);
      Emit(i);
      EmitExtends(SaveRegister(s).code, i, o, mid, out);
    }

    method GenLoopBegin()
      modifies this`out, this`dataOp, this`labelNumber, this`beginLabelStack, this`endLabelStack
      ensures State() == LoopBeginStep(old(State())).st
      ensures out == old(out) + Backend.RenderAll(arch, LoopBeginStep(old(State())).code)
    {
      ghost var s, o := State(), out;
      RestoreRegisterIfChanged();
      ghost var o1 := out;
      var beginLabel := FreshLabel();
      Emit(Label(beginLabel));
      ghost var o2 := out;
      beginLabelStack := beginLabelStack + [beginLabel];
      var endLabel := FreshLabel();
      Emit(BranchIfZero(endLabel));
      endLabelStack := endLabelStack + [endLabel];
      EmitTwoExtends(RestoreRegister(s).code, Label(beginLabel), BranchIfZero(endLabel), o, o1, o2, out);
      LoopBeginOf(s, beginLabel, endLabel);
    }

    /** gen_loop_end: an empty stack pops nil, which is written as the empty label. */
    method GenLoopEnd()
      modifies this`out, this`dataOp, this`beginLabelStack, this`endLabelStack
      ensures State() == LoopEndStep(old(State())).st
      ensures out == old(out) + Backend.RenderAll(arch, LoopEndStep(old(State())).code)
    {
      ghost var s, o := State(), out;
      RestoreRegisterIfChanged();
      ghost var o1 := out;
      var beginLabel := "";
      if beginLabelStack != [] {
        beginLabel := beginLabelStack[|beginLabelStack| - 1];
        beginLabelStack := beginLabelStack[..|beginLabelStack| - 1];
      }
      assert (beginLabel, beginLabelStack) == Pop(s.beginStack);
      Emit(Jump(beginLabel));
      ghost var o2 := out;
      var endLabel := "";
      if endLabelStack != [] {
        endLabel := endLabelStack[|endLabelStack| - 1];
        endLabelStack := endLabelStack[..|endLabelStack| - 1];
      }
      assert (endLabel, endLabelStack) == Pop(s.endStack);
      Emit(Label(endLabel));
      EmitTwoExtends(RestoreRegister(s).code, Jump(beginLabel), Label(endLabel), o, o1, o2, out);
    }

    method GenPutchar()
      modifies this`out, this`dataOp
      ensures State() == PutcharStep(old(State())).st
      ensures out == old(out) + Backend.RenderAll(arch, PutcharStep(old(State())).code)
    {
      ghost var s, o := State(), out;
      SaveRegisterIfChanged();
      ghost var mid := out;
      Emit(CallPutchar);
      EmitExtends(SaveRegister(s).code, CallPutchar, o, mid, out);
    }

    /** gen_getchar: the flag is cleared without a store, since the input routine overwrites the cell. */
    method GenGetchar()
      modifies this`out, this`dataOp
      ensures State() == GetcharStep(old(State())).st
      ensures out == old(out) + Backend.RenderAll(arch, GetcharStep(old(State())).code)
    {
      dataOp := false;
      Emit(CallGetchar);
    }

    /** gen_preamble: the preamble file's text, then the backend's frame set-up. */
    method GenPreamble()
      modifies this`out
      ensures out == old(out) + [preambleText] + Backend.Preamble(arch, stackSize)
    {
      out := out + [preambleText];
      out := out + Backend.Preamble(arch, stackSize);
    }

    /** gen_postamble: the backend's frame tear-down. */
    method GenPostamble()
      modifies this`out
      ensures out == old(out) + Backend.Postamble(arch, stackSize)
    {
      out := out + Backend.Postamble(arch, stackSize);
    }

    /** One iteration of gen_code's `case`: a token matching no branch is skipped. */
    method GenToken(tok: Token)
      modifies this`out, this`dataOp, this`labelNumber, this`beginLabelStack, this`endLabelStack
      ensures State() == Step(old(State()), tok).st
      ensures out == old(out) + Backend.RenderAll(arch, Step(old(State()), tok).code)
    {
      match tok
      case DataArith(n) => GenDataOp(n);
      case PtrArith(n) => GenPointerOp(n);
      case LoopBegin => GenLoopBegin();
      case LoopEnd => GenLoopEnd();
      case PutChar => GenPutchar();
      case GetChar => GenGetchar();
      case Unrecognised =>
    }

    /** gen_code's `tokens.each` loop: each token handled in input order. */
    method GenTokens(tokens: seq<Token>)
      modifies this`out, this`dataOp, this`labelNumber, this`beginLabelStack, this`endLabelStack
      ensures var e := Run(old(State()), tokens);
        State() == e.st && out == old(out) + Backend.RenderAll(arch, e.code)
    {
      ghost var s0 := State();
      for i := 0 to |tokens|
        invariant State() == Run(s0, tokens[..i]).st
        invariant out == old(out) + Backend.RenderAll(arch, Run(s0, tokens[..i]).code)
      {
        ghost var p := Run(s0, tokens[..i]);
        ghost var o := out;
        GenToken(tokens[i]);
        RunPrefix(s0, tokens, i);
        RenderExtends(p.code, Step(p.st, tokens[i]).code, old(out), o, out);
      }
      assert tokens[..|tokens|] == tokens;
    }

    /** Text written for `code` and then the lines of `i` is the text of `code + [i]`. */
    lemma EmitExtends(code: seq<Instr>, i: Instr, before: seq<string>, mid: seq<string>, after: seq<string>)
      requires mid == before + Backend.RenderAll(arch, code)
      requires after == mid + Backend.Lines(arch, i)
      ensures after == before + Backend.RenderAll(arch, code + [i])
    {
      Backend.RenderSnoc(arch, code, i);
      Backend.ConcatAssoc(before, Backend.RenderAll(arch, code), Backend.Lines(arch, i));
    }

    /** Text written for `code` and then the lines of `i` and of `j` is the text of `code + [i, j]`. */
    lemma EmitTwoExtends(code: seq<Instr>, i: Instr, j: Instr, before: seq<string>, o1: seq<string>,
                         o2: seq<string>, after: seq<string>)
      requires o1 == before + Backend.RenderAll(arch, code)
      requires o2 == o1 + Backend.Lines(arch, i)
      requires after == o2 + Backend.Lines(arch, j)
      ensures after == before + Backend.RenderAll(arch, code + [i, j])
    {
      EmitExtends(code, i, before, o1, o2);
      EmitExtends(code + [i], j, before, o2, after);
      SnocTwice(code, i, j);
    }

    /** Text written for `a` and then for `b` is the text of `a + b`. */
    lemma RenderExtends(a: seq<Instr>, b: seq<Instr>, before: seq<string>, mid: seq<string>, after: seq<string>)
      requires mid == before + Backend.RenderAll(arch, a)
      requires after == mid + Backend.RenderAll(arch, b)
      ensures after == before + Backend.RenderAll(arch, a + b)
    {
      Backend.RenderAllAppend(arch, a, b);
      Backend.ConcatAssoc(before, Backend.RenderAll(arch, a), Backend.RenderAll(arch, b));
    }

    /**
     gen_code without the final compile_executable: the flag and the stacks
     are reset (the counter is not), then the preamble, every token in
     order and the postamble are written.
     */
    method GenCode(tokens: seq<Token>)
      modifies this`out, this`dataOp, this`labelNumber, this`beginLabelStack, this`endLabelStack
      ensures var e := Run(Start(old(labelNumber)), tokens);
        && State() == e.st
        && out == old(out) + [preambleText] + Backend.Preamble(arch, stackSize)
                  + Backend.RenderAll(arch, e.code) + Backend.Postamble(arch, stackSize)
    {
      dataOp := true;
      beginLabelStack := [];
      endLabelStack := [];
      GenPreamble();
      GenTokens(tokens);
      GenPostamble();
    }
  }
}
