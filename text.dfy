/**
 The lines each routine writes, spelled out per backend: the register
 cache decides whether a load or store line comes first, then the
 routine's own lines follow with the amount's magnitude as immediate and
 the labels as the counter made them.
 */
module Text {
  import opened Asm
  import opened Decimal
  import opened GenSpec
  import opened Backend

  function Abs(n: int): nat {
    if n < 0 then -n else n
  }

  /** The line a save writes. */
  function StoreLine(arch: Arch): string {
    match arch
    case ArmHf => "\tstrb\tr5, [r4]"
    case Amd64 => "\tmovb\t%r12b, (%rbx)"
  }

  /** The line a restore writes. */
  function LoadLine(arch: Arch): string {
    match arch
    case ArmHf => "\tldrb\tr5, [r4]"
    case Amd64 => "\tmovb\t(%rbx), %r12b"
  }

  /** Text concatenation regrouped: a literal prefix split differently. */
  lemma Joined(x: string, y: string, z: string)
    ensures x + (y + z) == (x + y) + z
  {
  }

  lemma RenderPair(arch: Arch, i: Instr, j: Instr)
    ensures RenderAll(arch, [i, j]) == Lines(arch, i) + Lines(arch, j)
  {
    RenderSnoc(arch, [i], j);
    RenderSnoc(arch, [], i);
    assert [] + [i] == [i];
    assert [i] + [j] == [i, j];
  }

  /** The text of a restore followed by `code`. */
  lemma RestoreThen(arch: Arch, s: GenState, code: seq<Instr>)
    ensures RenderAll(arch, RestoreRegister(s).code + code)
            == (if s.dataOp then [] else [LoadLine(arch)]) + RenderAll(arch, code)
  {
    RenderAllAppend(arch, RestoreRegister(s).code, code);
    if !s.dataOp {
      RenderSnoc(arch, [], Load);
      assert [] + [Load] == [Load];
    }
  }

  /** The text of a save followed by `code`. */
  lemma SaveThen(arch: Arch, s: GenState, code: seq<Instr>)
    ensures RenderAll(arch, SaveRegister(s).code + code)
            == (if s.dataOp then [StoreLine(arch)] else []) + RenderAll(arch, code)
  {
    RenderAllAppend(arch, SaveRegister(s).code, code);
    if s.dataOp {
      RenderSnoc(arch, [], Store);
      assert [] + [Store] == [Store];
    }
  }

  lemma SingleText(arch: Arch, i: Instr)
    ensures RenderAll(arch, [i]) == Lines(arch, i)
  {
    RenderSnoc(arch, [], i);
    assert [] + [i] == [i];
  }

  /**
   gen_data_op on ARM: nothing for a zero amount; otherwise `ldrb` only if
   the flag was clear, then one `add` or `sub` on r5 by the magnitude.
   */
  lemma ArmDataOpText(s: GenState, amount: int)
    ensures amount == 0 ==> RenderAll(ArmHf, DataOpStep(s, amount).code) == []
    ensures amount != 0 ==>
      (RenderAll(ArmHf, DataOpStep(s, amount).code)
       == (if s.dataOp then [] else ["\tldrb\tr5, [r4]"])
          + [(if amount < 0 then "\tsub\tr5, #" else "\tadd\tr5, #") + NatToString(Abs(amount))])
  {
    if amount != 0 {
      var i := if amount < 0 then SubCell(-amount) else AddCell(amount);
      RestoreThen(ArmHf, s, [i]);
      SingleText(ArmHf, i);
      var digits := NatToString(Abs(amount));
      Joined("\tsub\tr5, ", "#", digits);
      Joined("\tadd\tr5, ", "#", digits);
      assert "\tsub\tr5, " + "#" == "\tsub\tr5, #";
      assert "\tadd\tr5, " + "#" == "\tadd\tr5, #";
    }
  }

  /** gen_data_op on x86_64: `movb` into %r12b only if the flag was clear, then one `addb` or `subb`. */
  lemma Amd64DataOpText(s: GenState, amount: int)
    ensures amount == 0 ==> RenderAll(Amd64, DataOpStep(s, amount).code) == []
    ensures amount != 0 ==>
      (RenderAll(Amd64, DataOpStep(s, amount).code)
       == (if s.dataOp then [] else ["\tmovb\t(%rbx), %r12b"])
          + [(if amount < 0 then "\tsubb\t$" else "\taddb\t$") + NatToString(Abs(amount)) + ", %r12b"])
  {
    if amount != 0 {
      var i := if amount < 0 then SubCell(-amount) else AddCell(amount);
      RestoreThen(Amd64, s, [i]);
      SingleText(Amd64, i);
      var digits := NatToString(Abs(amount));
      Joined("\tsubb\t", "$", digits);
      Joined("\taddb\t", "$", digits);
      assert "\tsubb\t" + "$" == "\tsubb\t$";
      assert "\taddb\t" + "$" == "\taddb\t$";
    }
  }

  /**
   gen_pointer_op on ARM: nothing for a zero amount; otherwise `strb` only
   if the flag was set, then one `add` or `sub` on r4 by the magnitude.
   */
  lemma ArmPointerOpText(s: GenState, amount: int)
    ensures amount == 0 ==> RenderAll(ArmHf, PointerOpStep(s, amount).code) == []
    ensures amount != 0 ==>
      (RenderAll(ArmHf, PointerOpStep(s, amount).code)
       == (if s.dataOp then ["\tstrb\tr5, [r4]"] else [])
          + [(if amount < 0 then "\tsub\tr4, #" else "\tadd\tr4, #") + NatToString(Abs(amount))])
  {
    if amount != 0 {
      var i := if amount < 0 then SubPtr(-amount) else AddPtr(amount);
      SaveThen(ArmHf, s, [i]);
      SingleText(ArmHf, i);
      var digits := NatToString(Abs(amount));
      Joined("\tsub\tr4, ", "#", digits);
      Joined("\tadd\tr4, ", "#", digits);
      assert "\tsub\tr4, " + "#" == "\tsub\tr4, #";
      assert "\tadd\tr4, " + "#" == "\tadd\tr4, #";
    }
  }

  /** gen_pointer_op on x86_64: `movb` from %r12b only if the flag was set, then one `addq` or `subq` on %rbx. */
  lemma Amd64PointerOpText(s: GenState, amount: int)
    ensures amount == 0 ==> RenderAll(Amd64, PointerOpStep(s, amount).code) == []
    ensures amount != 0 ==>
      (RenderAll(Amd64, PointerOpStep(s, amount).code)
       == (if s.dataOp then ["\tmovb\t%r12b, (%rbx)"] else [])
          + [(if amount < 0 then "\tsubq\t$" else "\taddq\t$") + NatToString(Abs(amount)) + ", %rbx"])
  {
    if amount != 0 {
      var i := if amount < 0 then SubPtr(-amount) else AddPtr(amount);
      SaveThen(Amd64, s, [i]);
      SingleText(Amd64, i);
      var digits := NatToString(Abs(amount));
      Joined("\tsubq\t", "$", digits);
      Joined("\taddq\t", "$", digits);
      assert "\tsubq\t" + "$" == "\tsubq\t$";
      assert "\taddq\t" + "$" == "\taddq\t$";
    }
  }

  /**
   gen_loop_begin on ARM: a load only if the flag was clear, the begin
   label's definition, the byte mask and zero test, and the branch to the
   end label, the end label numbered one above the begin label.
   */
  lemma ArmLoopBeginText(s: GenState)
    ensures var n := s.labelNumber;
      RenderAll(ArmHf, LoopBeginStep(s).code)
      == (if s.dataOp then [] else ["\tldrb\tr5, [r4]"])
         + [".L" + NatToString(n + 1) + ":", "\tand\tr5, #255", "\tcmp\tr5, #0", "\tbeq .L" + NatToString(n + 2)]
  {
    var b, l := LabelName(s.labelNumber + 1), LabelName(s.labelNumber + 2);
    var tail := [Label(b), BranchIfZero(l)];
    assert LoopBeginStep(s).code == RestoreRegister(s).code + tail;
    RestoreThen(ArmHf, s, tail);
    RenderPair(ArmHf, Label(b), BranchIfZero(l));
    Joined("\tbeq ", ".L", NatToString(s.labelNumber + 2));
    assert "\tbeq " + ".L" == "\tbeq .L";
    assert Lines(ArmHf, Label(b)) + Lines(ArmHf, BranchIfZero(l))
        == [b + ":", "\tand\tr5, #255", "\tcmp\tr5, #0", "\tbeq " + l];
  }

  /** gen_loop_begin on x86_64: the begin label, `testb` of %r12b and `je` to the end label. */
  lemma Amd64LoopBeginText(s: GenState)
    ensures var n := s.labelNumber;
      RenderAll(Amd64, LoopBeginStep(s).code)
      == (if s.dataOp then [] else ["\tmovb\t(%rbx), %r12b"])
         + [".L" + NatToString(n + 1) + ":", "\ttestb\t%r12b, %r12b", "\tje\t.L" + NatToString(n + 2)]
  {
    var b, l := LabelName(s.labelNumber + 1), LabelName(s.labelNumber + 2);
    var tail := [Label(b), BranchIfZero(l)];
    assert LoopBeginStep(s).code == RestoreRegister(s).code + tail;
    RestoreThen(Amd64, s, tail);
    RenderPair(Amd64, Label(b), BranchIfZero(l));
    Joined("\tje\t", ".L", NatToString(s.labelNumber + 2));
    assert "\tje\t" + ".L" == "\tje\t.L";
    assert Lines(Amd64, Label(b)) + Lines(Amd64, BranchIfZero(l))
        == [b + ":", "\ttestb\t%r12b, %r12b", "\tje\t" + l];
  }

  /** gen_loop_end on ARM: a load only if the flag was clear, `b` to the popped begin label, the popped end label. */
  lemma ArmLoopEndText(s: GenState)
    ensures RenderAll(ArmHf, LoopEndStep(s).code)
      == (if s.dataOp then [] else ["\tldrb\tr5, [r4]"])
         + ["\tb\t" + Pop(s.beginStack).0, Pop(s.endStack).0 + ":"]
  {
    var b, l := Pop(s.beginStack).0, Pop(s.endStack).0;
    RestoreThen(ArmHf, s, [Jump(b), Label(l)]);
    RenderPair(ArmHf, Jump(b), Label(l));
  }

  /** gen_loop_end on x86_64: `jmp` to the popped begin label, then the popped end label. */
  lemma Amd64LoopEndText(s: GenState)
    ensures RenderAll(Amd64, LoopEndStep(s).code)
      == (if s.dataOp then [] else ["\tmovb\t(%rbx), %r12b"])
         + ["\tjmp\t" + Pop(s.beginStack).0, Pop(s.endStack).0 + ":"]
  {
    var b, l := Pop(s.beginStack).0, Pop(s.endStack).0;
    RestoreThen(Amd64, s, [Jump(b), Label(l)]);
    RenderPair(Amd64, Jump(b), Label(l));
  }

  /** gen_putchar: a store only if the flag was set, then the call; gen_getchar: the call alone. */
  lemma CharText(arch: Arch, s: GenState)
    ensures RenderAll(arch, PutcharStep(s).code)
      == (if s.dataOp then [StoreLine(arch)] else [])
         + [if arch.ArmHf? then "\tbl\tbfputchar" else "\tcall\tbfputchar"]
    ensures RenderAll(arch, GetcharStep(s).code)
      == [if arch.ArmHf? then "\tbl\tbfgetchar" else "\tcall\tbfgetchar"]
  {
    SaveThen(arch, s, [CallPutchar]);
    SingleText(arch, CallPutchar);
    SingleText(arch, CallGetchar);
  }
}
