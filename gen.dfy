/**
 The architecture-independent behaviour of the code generator
 (codegen/codegen.rb and the routines both backends share) as functions on
 an explicit generation state: what each token emits as abstract
 instructions and how it moves the register-cache flag, the label counter
 and the two label stacks.
 */
module GenSpec {
  import opened Asm
  import opened Decimal

  /** The lexer's tokens; `Unrecognised` stands for any other object in the stream. */
  datatype Token =
    | DataArith(amount: int)
    | PtrArith(amount: int)
    | LoopBegin
    | LoopEnd
    | PutChar
    | GetChar
    | Unrecognised

  /**
   The generator's state. `dataOp` is `@data_op`: the accumulator holds the
   current cell's value, which may be newer than memory. The stacks are
   Ruby arrays: `push` appends, `pop` takes the last element.
   */
  datatype GenState = GenState(dataOp: bool, labelNumber: nat, beginStack: seq<string>, endStack: seq<string>)

  /** What one routine emits and the state it leaves behind. */
  datatype Emission = Emission(st: GenState, code: seq<Instr>)

  /** The state gen_code starts from: the counter is kept, the rest reset. */
  function Start(labelNumber: nat): (s: GenState)
    ensures s.dataOp && s.labelNumber == labelNumber
    ensures s.beginStack == [] && s.endStack == []
  {
    GenState(true, labelNumber, [], [])
  }

  /** The label fresh_label returns once the counter has reached `n`. */
  function LabelName(n: nat): string {
    ".L" + NatToString(n)
  }

  /** The number a label was made from. */
  function LabelNumber(l: string): nat {
    if |l| >= 2 then ParseNat(l[2..]) else 0
  }

  lemma LabelNumberOfName(n: nat)
    ensures LabelNumber(LabelName(n)) == n
  {
    assert LabelName(n)[2..] == NatToString(n);
    ParseNatToString(n);
  }

  /** Different counter values give different labels. */
  lemma LabelNameInjective(m: nat, n: nat)
    ensures LabelName(m) == LabelName(n) <==> m == n
  {
    LabelNumberOfName(m);
    LabelNumberOfName(n);
  }

  /** Ruby's `Array#pop`: on an empty array it yields nil, which interpolates as "". */
  function Pop(stack: seq<string>): (r: (string, seq<string>))
    ensures stack == [] ==> r == ("", [])
    ensures stack != [] ==> r.1 + [r.0] == stack
  {
    if stack == [] then ("", []) else (stack[|stack| - 1], stack[..|stack| - 1])
  }

  /** save_register_if_changed: a store, only while the flag is set; then the flag is clear. */
  function SaveRegister(s: GenState): (e: Emission)
    ensures e.st == s.(dataOp := false)
    ensures Stores(e.code) == |e.code| == (if s.dataOp then 1 else 0)
  {
    if s.dataOp then Emission(s.(dataOp := false), [Store]) else Emission(s, [])
  }

  /** restore_register_if_changed: a load, only while the flag is clear; then the flag is set. */
  function RestoreRegister(s: GenState): (e: Emission)
    ensures e.st == s.(dataOp := true)
    ensures Loads(e.code) == |e.code| == (if s.dataOp then 0 else 1)
  {
    if s.dataOp then Emission(s, []) else Emission(s.(dataOp := true), [Load])
  }

  /** The net change an accumulator or pointer instruction applies. */
  function Delta(i: Instr): int {
    match i
    case AddCell(n) => n
    case SubCell(n) => -(n as int)
    case AddPtr(n) => n
    case SubPtr(n) => -(n as int)
    case _ => 0
  }

  /** gen_data_op: a zero amount changes nothing; otherwise the flag ends set. */
  function DataOpStep(s: GenState, amount: int): (e: Emission)
    ensures amount == 0 ==> e == Emission(s, [])
    ensures amount != 0 ==> e.st == s.(dataOp := true)
  {
    if amount == 0 then Emission(s, [])
    else
      var r := RestoreRegister(s);
      Emission(r.st, r.code + [if amount < 0 then SubCell(-amount) else AddCell(amount)])
  }

  /**
   The code of a nonzero data operation: a load only if the flag was
   clear, never a store, and a last instruction that adds the amount to
   the accumulator (an add for a positive amount, a sub for a negative one).
   */
  lemma DataOpCode(s: GenState, amount: int)
    requires amount != 0
    ensures var e := DataOpStep(s, amount);
      && |e.code| == (if s.dataOp then 1 else 2)
      && Loads(e.code) == (if s.dataOp then 0 else 1)
      && Stores(e.code) == 0
      && var last := e.code[|e.code| - 1];
      && (last.AddCell? || last.SubCell?)
      && Delta(last) == amount
      && (last.AddCell? <==> amount > 0)
  {
    var code := DataOpStep(s, amount).code;
    var i := code[|code| - 1];
    assert i == if amount < 0 then SubCell(-amount) else AddCell(amount);
    ShortCounts(Load, i);
    ShortCounts(i, i);
    if !s.dataOp {
      assert code == [Load, i];
    } else {
      assert code == [i];
    }
  }

  /** gen_pointer_op: a zero amount changes nothing; otherwise the flag ends clear. */
  function PointerOpStep(s: GenState, amount: int): (e: Emission)
    ensures amount == 0 ==> e == Emission(s, [])
    ensures amount != 0 ==> e.st == s.(dataOp := false)
  {
    if amount == 0 then Emission(s, [])
    else
      var r := SaveRegister(s);
      Emission(r.st, r.code + [if amount < 0 then SubPtr(-amount) else AddPtr(amount)])
  }

  /**
   The code of a nonzero pointer move: a store only if the flag was set,
   never a load, and a last instruction that moves the pointer by the
   amount.
   */
  lemma PointerOpCode(s: GenState, amount: int)
    requires amount != 0
    ensures var e := PointerOpStep(s, amount);
      && |e.code| == (if s.dataOp then 2 else 1)
      && Stores(e.code) == (if s.dataOp then 1 else 0)
      && Loads(e.code) == 0
      && var last := e.code[|e.code| - 1];
      && (last.AddPtr? || last.SubPtr?)
      && Delta(last) == amount
      && (last.AddPtr? <==> amount > 0)
  {
    var code := PointerOpStep(s, amount).code;
    var i := code[|code| - 1];
    assert i == if amount < 0 then SubPtr(-amount) else AddPtr(amount);
    ShortCounts(Store, i);
    ShortCounts(i, i);
    if s.dataOp {
      assert code == [Store, i];
    } else {
      assert code == [i];
    }
  }

  /**
   gen_loop_begin: after a restore (so the flag is set) the begin label is
   defined and immediately followed by the zero test that branches to the
   end label; the two fresh labels are pushed, the begin label numbered
   below the end label.
   */
  function LoopBeginStep(s: GenState): (e: Emission)
    ensures var b, l := LabelName(s.labelNumber + 1), LabelName(s.labelNumber + 2);
      && e.st == GenState(true, s.labelNumber + 2, s.beginStack + [b], s.endStack + [l])
      && e.code == RestoreRegister(s).code + [Label(b), BranchIfZero(l)]
  {
    var r := RestoreRegister(s);
    var b := LabelName(s.labelNumber + 1);
    var l := LabelName(s.labelNumber + 2);
    Emission(r.st.(labelNumber := s.labelNumber + 2, beginStack := s.beginStack + [b], endStack := s.endStack + [l]),
             r.code + [Label(b), BranchIfZero(l)])
  }

  /** The loop begin step in terms of the two labels fresh_label returned. */
  lemma LoopBeginOf(s: GenState, b: string, l: string)
    requires b == LabelName(s.labelNumber + 1) && l == LabelName(s.labelNumber + 2)
    ensures LoopBeginStep(s)
         == Emission(GenState(true, s.labelNumber + 2, s.beginStack + [b], s.endStack + [l]),
                     RestoreRegister(s).code + [Label(b), BranchIfZero(l)])
  {
  }

  /**
   gen_loop_end: after a restore (so the flag is set) a jump to the label
   popped from the begin stack, then the definition of the label popped
   from the end stack. Popping an empty stack is not detected: Ruby's nil
   renders as the empty label.
   */
  function LoopEndStep(s: GenState): (e: Emission)
    ensures e.st.dataOp && e.st.labelNumber == s.labelNumber
    ensures e.code == RestoreRegister(s).code + [Jump(Pop(s.beginStack).0), Label(Pop(s.endStack).0)]
  {
    var r := RestoreRegister(s);
    var (b, bs) := Pop(s.beginStack);
    var (l, es) := Pop(s.endStack);
    Emission(r.st.(beginStack := bs, endStack := es), r.code + [Jump(b), Label(l)])
  }

  /**
   A loop end jumps to the top of the begin stack and defines the top of
   the end stack, each stack losing exactly its top; on an empty stack the
   label is empty and the stack stays empty.
   */
  lemma LoopEndPops(s: GenState)
    ensures var e := LoopEndStep(s);
      && (s.beginStack != [] ==> e.st.beginStack + [e.code[|e.code| - 2].target] == s.beginStack)
      && (s.endStack != [] ==> e.st.endStack + [e.code[|e.code| - 1].name] == s.endStack)
      && (s.beginStack == [] ==> e.st.beginStack == [] && e.code[|e.code| - 2] == Jump(""))
      && (s.endStack == [] ==> e.st.endStack == [] && e.code[|e.code| - 1] == Label(""))
  {
  }

  /** gen_putchar: the output routine reads memory, so the cell is stored first. */
  function PutcharStep(s: GenState): (e: Emission)
    ensures e.st == s.(dataOp := false)
    ensures e.code == SaveRegister(s).code + [CallPutchar]
  {
    var r := SaveRegister(s);
    Emission(r.st, r.code + [CallPutchar])
  }

  /** Output is preceded by a store exactly when the flag was set, and never by a load. */
  lemma PutcharCode(s: GenState)
    ensures var e := PutcharStep(s);
      Stores(e.code) == (if s.dataOp then 1 else 0) && Loads(e.code) == 0
  {
    StoresAppend(SaveRegister(s).code, [CallPutchar]);
    LoadsAppend(SaveRegister(s).code, [CallPutchar]);
  }

  /** gen_getchar: no store, since the input routine overwrites the cell; the flag is cleared. */
  function GetcharStep(s: GenState): (e: Emission)
    ensures e.st == s.(dataOp := false)
    ensures e.code == [CallGetchar]
  {
    Emission(s.(dataOp := false), [CallGetchar])
  }

  /** The dispatch of gen_code's `case`: a token matching no branch does nothing. */
  function Step(s: GenState, t: Token): (e: Emission)
    ensures t.Unrecognised? ==> e == Emission(s, [])
    ensures e.st.labelNumber == s.labelNumber + (if t.LoopBegin? then 2 else 0)
  {
    match t
    case DataArith(n) => DataOpStep(s, n)
    case PtrArith(n) => PointerOpStep(s, n)
    case LoopBegin => LoopBeginStep(s)
    case LoopEnd => LoopEndStep(s)
    case PutChar => PutcharStep(s)
    case GetChar => GetcharStep(s)
    case Unrecognised => Emission(s, [])
  }

  /** The tokens handled one after another, in input order, each emission appended. */
  function Run(s: GenState, toks: seq<Token>): Emission
    decreases |toks|
  {
    if toks == [] then Emission(s, [])
    else
      var p := Run(s, toks[..|toks| - 1]);
      var q := Step(p.st, toks[|toks| - 1]);
      Emission(q.st, p.code + q.code)
  }

  /** One more token at the end: its step follows the run of the rest. */
  lemma RunSnoc(s: GenState, toks: seq<Token>, t: Token)
    ensures var p := Run(s, toks);
      var q := Step(p.st, t);
      Run(s, toks + [t]) == Emission(q.st, p.code + q.code)
  {
    assert (toks + [t])[..|toks|] == toks;
  }

  /** Handling `a` and then `b` is handling `a + b`. */
  lemma {:induction false} RunAppend(s: GenState, a: seq<Token>, b: seq<Token>)
    ensures var ra := Run(s, a);
      var rb := Run(ra.st, b);
      Run(s, a + b) == Emission(rb.st, ra.code + rb.code)
    decreases |b|
  {
    if b == [] {
      assert a + b == a;
    } else {
      var b', t := b[..|b| - 1], b[|b| - 1];
      assert b == b' + [t];
      assert a + b == (a + b') + [t];
      RunAppend(s, a, b');
      var ra := Run(s, a);
      var rb' := Run(ra.st, b');
      RunSnoc(s, a + b', t);
      RunSnoc(ra.st, b', t);
      var q := Step(rb'.st, t);
      SeqAssoc(ra.code, rb'.code, q.code);
    }
  }

  lemma SeqAssoc(x: seq<Instr>, y: seq<Instr>, z: seq<Instr>)
    ensures (x + y) + z == x + (y + z)
  {
  }

  /** One more token of a list: the next prefix's run extends the last one by that token's step. */
  lemma RunPrefix(s: GenState, toks: seq<Token>, i: nat)
    requires i < |toks|
    ensures var p := Run(s, toks[..i]);
      var q := Step(p.st, toks[i]);
      Run(s, toks[..i + 1]) == Emission(q.st, p.code + q.code)
  {
    assert toks[..i + 1][..i] == toks[..i];
  }

  lemma RunSingle(s: GenState, t: Token)
    ensures Run(s, [t]) == Step(s, t)
  {
    assert [t][..0] == [];
  }

  /** The first token's emission comes first. */
  lemma RunCons(s: GenState, t: Token, rest: seq<Token>)
    ensures var e := Step(s, t);
      Run(s, [t] + rest) == Emission(Run(e.st, rest).st, e.code + Run(e.st, rest).code)
  {
    RunSingle(s, t);
    RunAppend(s, [t], rest);
  }

  function CountBegins(toks: seq<Token>): nat
    decreases |toks|
  {
    if toks == [] then 0 else CountBegins(toks[..|toks| - 1]) + (if toks[|toks| - 1].LoopBegin? then 1 else 0)
  }

  /** The counter only grows: by two labels per loop begin, and by nothing else. */
  lemma {:induction false} LabelCounter(s: GenState, toks: seq<Token>)
    ensures Run(s, toks).st.labelNumber == s.labelNumber + 2 * CountBegins(toks)
    decreases |toks|
  {
    if toks != [] {
      LabelCounter(s, toks[..|toks| - 1]);
    }
  }

  /** The two stacks are pushed together and popped together, so their depths stay equal. */
  /**
   From the counter a new generator starts with, 0, the first loop of the
   first program gets `.L1` as its begin label and `.L2` as its end label,
   whatever loop-free tokens come before it: fresh_label increments the
   counter before formatting it.
   */
  lemma FirstLoopLabels(prefix: seq<Token>)
    requires CountBegins(prefix) == 0
    ensures var e := Run(Start(0), prefix + [LoopBegin]);
      && e.st.labelNumber == 2
      && |e.code| >= 2
      && e.code[|e.code| - 2..] == [Label(".L1"), BranchIfZero(".L2")]
  {
    var p := Run(Start(0), prefix);
    LabelCounter(Start(0), prefix);
    RunSnoc(Start(0), prefix, LoopBegin);
    var q := LoopBeginStep(p.st);
    var tail := [Label(".L1"), BranchIfZero(".L2")];
    FirstLabels(p.st);
    var code := p.code + q.code;
    assert code == (p.code + RestoreRegister(p.st).code) + tail;
    assert code[|code| - 2..] == tail;
  }

  lemma FirstLabels(st: GenState)
    requires st.labelNumber == 0
    ensures LoopBeginStep(st).code == RestoreRegister(st).code + [Label(".L1"), BranchIfZero(".L2")]
  {
    assert LabelName(1) == ".L1" && LabelName(2) == ".L2";
  }

  lemma {:induction false} StacksEqualDepth(s: GenState, toks: seq<Token>)
    requires |s.beginStack| == |s.endStack|
    ensures |Run(s, toks).st.beginStack| == |Run(s, toks).st.endStack|
    decreases |toks|
  {
    if toks != [] {
      StacksEqualDepth(s, toks[..|toks| - 1]);
    }
  }

  /** Loop begins minus loop ends. */
  function Depth(toks: seq<Token>): int
    decreases |toks|
  {
    if toks == [] then 0
    else Depth(toks[..|toks| - 1]) + (if toks[|toks| - 1].LoopBegin? then 1 else if toks[|toks| - 1].LoopEnd? then -1 else 0)
  }

  /** No prefix closes more loops than it opens. */
  predicate NoUnderflow(toks: seq<Token>)
    decreases |toks|
  {
    toks == [] || (NoUnderflow(toks[..|toks| - 1]) && Depth(toks) >= 0)
  }

  /** Balanced nesting: what the parser guarantees the generator. */
  predicate Balanced(toks: seq<Token>) {
    NoUnderflow(toks) && Depth(toks) == 0
  }

  /**
   Without underflow the tokens never pop below the stacks they started
   from: the old stacks stay at the bottom, and exactly `Depth(toks)` labels
   sit on top of each.
   */
  lemma {:induction false} StackFrame(s: GenState, toks: seq<Token>)
    requires NoUnderflow(toks)
    ensures var st := Run(s, toks).st;
      && |st.beginStack| == |s.beginStack| + Depth(toks)
      && |st.endStack| == |s.endStack| + Depth(toks)
      && st.beginStack[..|s.beginStack|] == s.beginStack
      && st.endStack[..|s.endStack|] == s.endStack
    decreases |toks|
  {
    if toks != [] {
      var init := toks[..|toks| - 1];
      StackFrame(s, init);
      var p := Run(s, init).st;
      var t := toks[|toks| - 1];
      StepStacks(p, t);
      var q := Step(p, t).st;
      assert Run(s, toks).st == q;
      if t.LoopBegin? {
        PushKeepsBottom(p.beginStack, LabelName(p.labelNumber + 1), |s.beginStack|);
        PushKeepsBottom(p.endStack, LabelName(p.labelNumber + 2), |s.endStack|);
      } else if t.LoopEnd? {
        PopKeepsBottom(p.beginStack, |s.beginStack|);
        PopKeepsBottom(p.endStack, |s.endStack|);
      }
    }
  }

  /** What one token does to the two stacks. */
  lemma StepStacks(s: GenState, t: Token)
    ensures var st := Step(s, t).st;
      && st.beginStack == (if t.LoopBegin? then s.beginStack + [LabelName(s.labelNumber + 1)]
                           else if t.LoopEnd? then Pop(s.beginStack).1 else s.beginStack)
      && st.endStack == (if t.LoopBegin? then s.endStack + [LabelName(s.labelNumber + 2)]
                         else if t.LoopEnd? then Pop(s.endStack).1 else s.endStack)
  {
  }

  lemma PushKeepsBottom(stack: seq<string>, x: string, n: nat)
    requires n <= |stack|
    ensures (stack + [x])[..n] == stack[..n]
  {
  }

  lemma PopKeepsBottom(stack: seq<string>, n: nat)
    requires n < |stack|
    ensures Pop(stack).1[..n] == stack[..n] && |Pop(stack).1| == |stack| - 1
  {
  }

  /** A balanced token stream leaves both stacks as it found them; from gen_code's reset, empty. */
  lemma BalancedRestoresStacks(s: GenState, toks: seq<Token>)
    requires Balanced(toks)
    ensures Run(s, toks).st.beginStack == s.beginStack
    ensures Run(s, toks).st.endStack == s.endStack
  {
    StackFrame(s, toks);
  }

  /**
   A loop `[ body ]` with a balanced body compiles to: the begin label, the
   zero test branching to the end label, the body, a jump back to that same
   begin label, and the definition of that same end label. The labels the
   loop end pops are exactly the ones its loop begin pushed.
   */
  lemma LoopStructure(s: GenState, body: seq<Token>)
    requires Balanced(body)
    ensures var b, l := LabelName(s.labelNumber + 1), LabelName(s.labelNumber + 2);
      var s1 := LoopBeginStep(s).st;
      var rb := Run(s1, body);
      var e := Run(s, [LoopBegin] + body + [LoopEnd]);
      && e.code == RestoreRegister(s).code + [Label(b), BranchIfZero(l)] + rb.code
                   + RestoreRegister(rb.st).code + [Jump(b), Label(l)]
      && e.st.beginStack == s.beginStack
      && e.st.endStack == s.endStack
      && e.st.dataOp
  {
    LoopBrackets(s, body);
    LoopEndAfterBody(s, body);
  }

  /** How a bracketed token list decomposes, whatever the body. */
  lemma LoopBrackets(s: GenState, body: seq<Token>)
    ensures var e0 := LoopBeginStep(s);
      var rb := Run(e0.st, body);
      var e1 := LoopEndStep(rb.st);
      Run(s, [LoopBegin] + body + [LoopEnd]) == Emission(e1.st, e0.code + rb.code + e1.code)
  {
    var e0 := LoopBeginStep(s);
    var rb := Run(e0.st, body);
    RunCons(s, LoopBegin, body);
    RunAppend(s, [LoopBegin] + body, [LoopEnd]);
    RunSingle(rb.st, LoopEnd);
  }

  lemma LoopEndAfterBody(s: GenState, body: seq<Token>)
    requires Balanced(body)
    ensures var b, l := LabelName(s.labelNumber + 1), LabelName(s.labelNumber + 2);
      var rb := Run(LoopBeginStep(s).st, body);
      var e1 := LoopEndStep(rb.st);
      && e1.code == RestoreRegister(rb.st).code + [Jump(b), Label(l)]
      && e1.st.beginStack == s.beginStack
      && e1.st.endStack == s.endStack
      && e1.st.dataOp
  {
    var b, l := LabelName(s.labelNumber + 1), LabelName(s.labelNumber + 2);
    var s1 := LoopBeginStep(s).st;
    BalancedRestoresStacks(s1, body);
    var rb := Run(s1, body);
    assert rb.st.beginStack == s.beginStack + [b];
    assert rb.st.endStack == s.endStack + [l];
    assert Pop(rb.st.beginStack) == (b, s.beginStack);
    assert Pop(rb.st.endStack) == (l, s.endStack);
  }

  /**
   Cache elision: however many data operations follow one another, at
   most one load is emitted and no store; exactly one load when the flag
   was clear and any of them is nonzero.
   */
  lemma {:induction false} DataRunElision(s: GenState, toks: seq<Token>)
    requires forall k :: 0 <= k < |toks| ==> toks[k].DataArith?
    ensures var e := Run(s, toks);
      && Stores(e.code) == 0
      && Loads(e.code) == (if s.dataOp || !AnyNonzero(toks) then 0 else 1)
      && e.st == s.(dataOp := s.dataOp || AnyNonzero(toks))
    decreases |toks|
  {
    if toks != [] {
      var init := toks[..|toks| - 1];
      var t := toks[|toks| - 1];
      DataRunElision(s, init);
      var p := Run(s, init);
      var q := DataOpStep(p.st, t.amount);
      assert Run(s, toks) == Emission(q.st, p.code + q.code);
      if t.amount != 0 {
        DataOpCode(p.st, t.amount);
      }
      LoadsAppend(p.code, q.code);
      StoresAppend(p.code, q.code);
      AnyNonzeroSnoc(toks);
    }
  }

  /** Some token in the list changes the cell. */
  predicate AnyNonzero(toks: seq<Token>) {
    exists k :: 0 <= k < |toks| && toks[k] != DataArith(0)
  }

  lemma AnyNonzeroSnoc(toks: seq<Token>)
    requires toks != []
    ensures AnyNonzero(toks) <==> AnyNonzero(toks[..|toks| - 1]) || toks[|toks| - 1] != DataArith(0)
  {
    var init := toks[..|toks| - 1];
    if AnyNonzero(toks) && toks[|toks| - 1] == DataArith(0) {
      var k :| 0 <= k < |toks| && toks[k] != DataArith(0);
      assert init[k] == toks[k];
    }
    if AnyNonzero(init) {
      var k :| 0 <= k < |init| && init[k] != DataArith(0);
      assert toks[k] == init[k];
    }
  }

  /**
   A run of data operations followed by a pointer move flushes the
   accumulator exactly once: one store, never one per data operation.
   */
  lemma DataRunThenMove(s: GenState, data: seq<Token>, move: int)
    requires forall k :: 0 <= k < |data| ==> data[k].DataArith?
    requires exists k :: 0 <= k < |data| && data[k].amount != 0
    requires move != 0
    ensures var e := Run(s, data + [PtrArith(move)]);
      && Stores(e.code) == 1
      && Loads(e.code) == (if s.dataOp then 0 else 1)
      && !e.st.dataOp
  {
    DataRunElision(s, data);
    var p := Run(s, data);
    RunAppend(s, data, [PtrArith(move)]);
    RunSingle(p.st, PtrArith(move));
    var q := Step(p.st, PtrArith(move));
    PointerOpCode(p.st, move);
    LoadsAppend(p.code, q.code);
    StoresAppend(p.code, q.code);
  }

  lemma SaveIdempotent(s: GenState)
    ensures SaveRegister(SaveRegister(s).st) == Emission(SaveRegister(s).st, [])
  {
  }

  lemma RestoreIdempotent(s: GenState)
    ensures RestoreRegister(RestoreRegister(s).st) == Emission(RestoreRegister(s).st, [])
  {
  }
}
