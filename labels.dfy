/**
 Label discipline of a whole gen_code run: every label is defined at most
 once, and for balanced nesting the labels defined are exactly the labels
 branched to. Labels of one run are numbered above the counter the run
 started from, so the labels of successive runs on one generator never
 clash either.
 */
module Labels {
  import opened Asm
  import opened GenSpec

  /** No jump or label in the code. */
  predicate NoLabels(code: seq<Instr>) {
    forall k :: 0 <= k < |code| ==> !code[k].Label? && !code[k].Jump? && !code[k].BranchIfZero?
  }

  lemma {:induction false} NoLabelsDefsRefs(code: seq<Instr>)
    requires NoLabels(code)
    ensures Defs(code) == [] && Refs(code) == {}
    decreases |code|
  {
    if code != [] {
      NoLabelsDefsRefs(code[..|code| - 1]);
    }
  }

  /** Restoring the register neither defines nor references a label. */
  lemma RestoreNoLabels(s: GenState)
    ensures Defs(RestoreRegister(s).code) == [] && Refs(RestoreRegister(s).code) == {}
  {
    NoLabelsDefsRefs(RestoreRegister(s).code);
  }

  /** The labels of a restore followed by two instructions. */
  lemma AfterRestoreLabels(s: GenState, i: Instr, j: Instr)
    ensures var code := RestoreRegister(s).code + [i, j];
      && Defs(code) == Defs([i]) + Defs([j])
      && Refs(code) == Refs([i]) + Refs([j])
  {
    var r := RestoreRegister(s).code;
    RestoreNoLabels(s);
    assert [i, j] == [i] + [j];
    assert r + [i, j] == r + [i] + [j];
    DefsAppend(r, [i]);
    DefsAppend(r + [i], [j]);
    RefsAppend(r, [i]);
    RefsAppend(r + [i], [j]);
  }

  lemma SingleLabels(i: Instr)
    ensures Defs([i]) == (if i.Label? then [i.name] else [])
    ensures Refs([i]) == (if i.BranchIfZero? || i.Jump? then {i.target} else {})
  {
    assert [i][..0] == [];
  }

  lemma LoopBeginLabels(s: GenState)
    ensures Defs(LoopBeginStep(s).code) == [LabelName(s.labelNumber + 1)]
    ensures Refs(LoopBeginStep(s).code) == {LabelName(s.labelNumber + 2)}
  {
    var b, l := LabelName(s.labelNumber + 1), LabelName(s.labelNumber + 2);
    AfterRestoreLabels(s, Label(b), BranchIfZero(l));
    SingleLabels(Label(b));
    SingleLabels(BranchIfZero(l));
  }

  lemma LoopEndLabels(s: GenState)
    ensures Defs(LoopEndStep(s).code) == [Pop(s.endStack).0]
    ensures Refs(LoopEndStep(s).code) == {Pop(s.beginStack).0}
  {
    var b, l := Pop(s.beginStack).0, Pop(s.endStack).0;
    AfterRestoreLabels(s, Jump(b), Label(l));
    SingleLabels(Jump(b));
    SingleLabels(Label(l));
  }

  /** The other tokens neither define nor reference labels. */
  lemma OtherLabels(s: GenState, t: Token)
    requires !t.LoopBegin? && !t.LoopEnd?
    ensures Defs(Step(s, t).code) == [] && Refs(Step(s, t).code) == {}
  {
    var code := Step(s, t).code;
    match t
    case DataArith(n) =>
      if n != 0 {
        var r := RestoreRegister(s).code;
        assert NoLabels(r + [code[|code| - 1]]);
        assert code == r + [code[|code| - 1]];
      }
      NoLabelsDefsRefs(code);
    case PtrArith(n) =>
      if n != 0 {
        var r := SaveRegister(s).code;
        assert NoLabels(r + [code[|code| - 1]]);
        assert code == r + [code[|code| - 1]];
      }
      NoLabelsDefsRefs(code);
    case PutChar =>
      assert NoLabels(SaveRegister(s).code + [CallPutchar]);
      NoLabelsDefsRefs(code);
    case GetChar =>
      assert NoLabels([CallGetchar]);
      NoLabelsDefsRefs(code);
    case Unrecognised =>
      NoLabelsDefsRefs(code);
  }

  /**
   The stacks hold begin/end label pairs numbered n and n + 1 (the numbers
   `ns`), n increasing towards the top, all above `c0` and at most the
   counter.
   */
  ghost predicate StacksInv(c0: nat, st: GenState, ns: seq<nat>) {
    && c0 <= st.labelNumber
    && |ns| == |st.beginStack| == |st.endStack|
    && (forall j :: 0 <= j < |ns| ==>
          && st.beginStack[j] == LabelName(ns[j])
          && st.endStack[j] == LabelName(ns[j] + 1)
          && c0 < ns[j] && ns[j] + 1 <= st.labelNumber)
    && (forall j, k :: 0 <= j < k < |ns| ==> ns[j] < ns[k])
  }

  /**
   The defined labels (numbered `dn`) are numbered in (c0, counter], no
   number twice; none of them is a pending end label.
   */
  ghost predicate DefsInv(c0: nat, st: GenState, ns: seq<nat>, ds: seq<string>, dn: seq<nat>) {
    && |dn| == |ds|
    && (forall i :: 0 <= i < |dn| ==> ds[i] == LabelName(dn[i]) && c0 < dn[i] <= st.labelNumber)
    && (forall i, k :: 0 <= i < k < |dn| ==> dn[i] != dn[k])
    && (forall i, j :: 0 <= i < |dn| && 0 <= j < |ns| ==> dn[i] != ns[j] + 1)
  }

  /**
   References are to defined labels or to pending end labels; pending end
   labels are referenced and pending begin labels defined; each defined
   label is referenced or still pending on the begin stack.
   */
  ghost predicate RefsInv(st: GenState, ds: seq<string>, rs: set<string>) {
    && (forall r :: r in rs ==> r in ds || r in st.endStack)
    && (forall e :: e in st.endStack ==> e in rs)
    && (forall b :: b in st.beginStack ==> b in ds)
    && (forall d :: d in ds ==> d in rs || d in st.beginStack)
  }

  ghost predicate Inv(c0: nat, st: GenState, ns: seq<nat>, ds: seq<string>, dn: seq<nat>, rs: set<string>) {
    StacksInv(c0, st, ns) && DefsInv(c0, st, ns, ds, dn) && RefsInv(st, ds, rs)
  }

  lemma StacksInvBegin(c0: nat, st: GenState, st': GenState, ns: seq<nat>)
    requires StacksInv(c0, st, ns)
    requires var n := st.labelNumber;
      && st'.labelNumber == n + 2
      && st'.beginStack == st.beginStack + [LabelName(n + 1)]
      && st'.endStack == st.endStack + [LabelName(n + 2)]
    ensures StacksInv(c0, st', ns + [st.labelNumber + 1])
  {
    var ns' := ns + [st.labelNumber + 1];
    assert forall j :: 0 <= j < |ns| ==>
      ns'[j] == ns[j] && st'.beginStack[j] == st.beginStack[j] && st'.endStack[j] == st.endStack[j];
  }

  lemma DefsInvBegin(c0: nat, st: GenState, ns: seq<nat>, ds: seq<string>, dn: seq<nat>)
    requires StacksInv(c0, st, ns) && DefsInv(c0, st, ns, ds, dn)
    ensures var n := st.labelNumber;
      DefsInv(c0, LoopBeginStep(st).st, ns + [n + 1], ds + [LabelName(n + 1)], dn + [n + 1])
  {
  }

  lemma RefsInvBegin(st: GenState, ds: seq<string>, rs: set<string>)
    requires RefsInv(st, ds, rs)
    ensures var n := st.labelNumber;
      RefsInv(LoopBeginStep(st).st, ds + [LabelName(n + 1)], rs + {LabelName(n + 2)})
  {
  }

  /** A loop begin pushes a fresh pair and defines its begin label. */
  lemma InvLoopBegin(c0: nat, st: GenState, ns: seq<nat>, ds: seq<string>, dn: seq<nat>, rs: set<string>)
    requires Inv(c0, st, ns, ds, dn, rs)
    ensures var n := st.labelNumber;
      Inv(c0, LoopBeginStep(st).st, ns + [n + 1], ds + [LabelName(n + 1)], dn + [n + 1], rs + {LabelName(n + 2)})
  {
    StacksInvBegin(c0, st, LoopBeginStep(st).st, ns);
    DefsInvBegin(c0, st, ns, ds, dn);
    RefsInvBegin(st, ds, rs);
  }

  lemma StacksInvEnd(c0: nat, st: GenState, st': GenState, ns: seq<nat>)
    requires StacksInv(c0, st, ns) && st.beginStack != []
    requires var top := |ns| - 1;
      && st'.labelNumber == st.labelNumber
      && st'.beginStack == st.beginStack[..top]
      && st'.endStack == st.endStack[..top]
    ensures StacksInv(c0, st', ns[..|ns| - 1])
  {
  }

  lemma DefsInvEnd(c0: nat, st: GenState, st': GenState, ns: seq<nat>, ds: seq<string>, dn: seq<nat>)
    requires StacksInv(c0, st, ns) && DefsInv(c0, st, ns, ds, dn) && st.beginStack != []
    requires st'.labelNumber == st.labelNumber
    ensures var top := |ns| - 1;
      DefsInv(c0, st', ns[..top], ds + [st.endStack[top]], dn + [ns[top] + 1])
  {
  }

  lemma RefsInvEnd(st: GenState, ds: seq<string>, rs: set<string>)
    requires RefsInv(st, ds, rs) && |st.beginStack| == |st.endStack| && st.beginStack != []
    ensures RefsInv(LoopEndStep(st).st, ds + [Pop(st.endStack).0], rs + {Pop(st.beginStack).0})
  {
    var bs, es := st.beginStack, st.endStack;
    var top := |bs| - 1;
    assert bs == bs[..top] + [bs[top]];
    assert es == es[..top] + [es[top]];
  }

  /** A loop end pops the top pair, defines its end label and branches to its begin label. */
  lemma InvLoopEnd(c0: nat, st: GenState, ns: seq<nat>, ds: seq<string>, dn: seq<nat>, rs: set<string>)
    requires Inv(c0, st, ns, ds, dn, rs) && st.beginStack != []
    ensures var top := |ns| - 1;
      Inv(c0, LoopEndStep(st).st, ns[..top], ds + [Pop(st.endStack).0], dn + [ns[top] + 1], rs + {Pop(st.beginStack).0})
  {
    StacksInvEnd(c0, st, LoopEndStep(st).st, ns);
    DefsInvEnd(c0, st, LoopEndStep(st).st, ns, ds, dn);
    assert Pop(st.endStack).0 == st.endStack[|ns| - 1];
    RefsInvEnd(st, ds, rs);
  }

  lemma InvNonLoop(c0: nat, st: GenState, ns: seq<nat>, ds: seq<string>, dn: seq<nat>, rs: set<string>, t: Token)
    requires Inv(c0, st, ns, ds, dn, rs) && !t.LoopBegin? && !t.LoopEnd?
    ensures Inv(c0, Step(st, t).st, ns, ds, dn, rs)
  {
    StepStacks(st, t);
  }

  lemma StepBeginInv(c0: nat, st: GenState, ns: seq<nat>, ds: seq<string>, dn: seq<nat>, rs: set<string>)
    requires Inv(c0, st, ns, ds, dn, rs)
    ensures var q, n := Step(st, LoopBegin), st.labelNumber;
      Inv(c0, q.st, ns + [n + 1], ds + Defs(q.code), dn + [n + 1], rs + Refs(q.code))
  {
    LoopBeginLabels(st);
    InvLoopBegin(c0, st, ns, ds, dn, rs);
  }

  lemma StepEndInv(c0: nat, st: GenState, ns: seq<nat>, ds: seq<string>, dn: seq<nat>, rs: set<string>)
    requires Inv(c0, st, ns, ds, dn, rs) && st.beginStack != []
    ensures var q, top := Step(st, LoopEnd), |ns| - 1;
      Inv(c0, q.st, ns[..top], ds + Defs(q.code), dn + [ns[top] + 1], rs + Refs(q.code))
  {
    LoopEndLabels(st);
    InvLoopEnd(c0, st, ns, ds, dn, rs);
  }

  lemma StepOtherInv(c0: nat, st: GenState, ns: seq<nat>, ds: seq<string>, dn: seq<nat>, rs: set<string>, t: Token)
    requires Inv(c0, st, ns, ds, dn, rs) && !t.LoopBegin? && !t.LoopEnd?
    ensures var q := Step(st, t); Inv(c0, q.st, ns, ds + Defs(q.code), dn, rs + Refs(q.code))
  {
    OtherLabels(st, t);
    InvNonLoop(c0, st, ns, ds, dn, rs, t);
    assert ds + [] == ds;
    assert rs + {} == rs;
  }

  /** One token keeps the invariant, unless it is a loop end on empty stacks. */
  lemma StepKeepsInv(c0: nat, st: GenState, ns: seq<nat>, ds: seq<string>, dn: seq<nat>, rs: set<string>, t: Token)
      returns (ns': seq<nat>, dn': seq<nat>)
    requires Inv(c0, st, ns, ds, dn, rs)
    requires t.LoopEnd? ==> st.beginStack != []
    ensures var q := Step(st, t); Inv(c0, q.st, ns', ds + Defs(q.code), dn', rs + Refs(q.code))
  {
    match t
    case LoopBegin =>
      StepBeginInv(c0, st, ns, ds, dn, rs);
      ns', dn' := ns + [st.labelNumber + 1], dn + [st.labelNumber + 1];
    case LoopEnd =>
      StepEndInv(c0, st, ns, ds, dn, rs);
      ns', dn' := ns[..|ns| - 1], dn + [ns[|ns| - 1] + 1];
    case _ =>
      StepOtherInv(c0, st, ns, ds, dn, rs, t);
      ns', dn' := ns, dn;
  }

  /**
   The invariant holds after every prefix of a run without underflow; `ns`
   and `dn` are the numbers of the stacked and of the defined labels.
   */
  lemma {:induction false} RunKeepsInv(c0: nat, toks: seq<Token>) returns (ns: seq<nat>, dn: seq<nat>)
    requires NoUnderflow(toks)
    ensures var e := Run(Start(c0), toks); Inv(c0, e.st, ns, Defs(e.code), dn, Refs(e.code))
    decreases |toks|
  {
    if toks == [] {
      ns, dn := [], [];
    } else {
      var init := toks[..|toks| - 1];
      var t := toks[|toks| - 1];
      ns, dn := RunKeepsInv(c0, init);
      var p := Run(Start(c0), init);
      var q := Step(p.st, t);
      assert Run(Start(c0), toks) == Emission(q.st, p.code + q.code);
      DefsAppend(p.code, q.code);
      RefsAppend(p.code, q.code);
      StackFrame(Start(c0), init);
      ns, dn := StepKeepsInv(c0, p.st, ns, Defs(p.code), dn, Refs(p.code), t);
    }
  }

  /** Labels with distinct numbers are distinct text. */
  lemma DistinctFromNumbers(ds: seq<string>, dn: seq<nat>)
    requires |dn| == |ds|
    requires forall i :: 0 <= i < |dn| ==> ds[i] == LabelName(dn[i])
    requires forall i, k :: 0 <= i < k < |dn| ==> dn[i] != dn[k]
    ensures Distinct(ds)
  {
    forall i, k | 0 <= i < k < |ds|
      ensures ds[i] != ds[k]
    {
      LabelNameInjective(dn[i], dn[k]);
    }
  }

  /**
   For balanced nesting, each label is defined exactly once, every label
   defined is branched to and every label branched to is defined, and all
   of them are numbered between the counter before and after the run.
   */
  lemma LabelsWellFormed(c0: nat, toks: seq<Token>)
    requires Balanced(toks)
    ensures var e := Run(Start(c0), toks);
      && Distinct(Defs(e.code))
      && (forall l :: l in Defs(e.code) <==> l in Refs(e.code))
      && (forall l :: l in Defs(e.code) ==> c0 < LabelNumber(l) <= e.st.labelNumber)
  {
    var ns, dn := RunKeepsInv(c0, toks);
    BalancedRestoresStacks(Start(c0), toks);
    var e := Run(Start(c0), toks);
    var ds := Defs(e.code);
    DistinctFromNumbers(ds, dn);
    forall l | l in ds
      ensures c0 < LabelNumber(l) <= e.st.labelNumber
    {
      var i :| 0 <= i < |ds| && ds[i] == l;
      LabelNumberOfName(dn[i]);
    }
  }

  /**
   Two gen_code runs on one generator: the second starts from the counter
   the first left, so no label is defined by both.
   */
  lemma SuccessiveRunsDisjoint(c0: nat, first: seq<Token>, second: seq<Token>)
    requires NoUnderflow(first) && NoUnderflow(second)
    ensures var e1 := Run(Start(c0), first);
      var e2 := Run(Start(e1.st.labelNumber), second);
      forall l :: l in Defs(e1.code) ==> l !in Defs(e2.code)
  {
    var e1 := Run(Start(c0), first);
    var c1 := e1.st.labelNumber;
    var e2 := Run(Start(c1), second);
    var ns1, dn1 := RunKeepsInv(c0, first);
    var ns2, dn2 := RunKeepsInv(c1, second);
    forall l | l in Defs(e1.code)
      ensures l !in Defs(e2.code)
    {
      var i :| 0 <= i < |Defs(e1.code)| && Defs(e1.code)[i] == l;
      if l in Defs(e2.code) {
        var k :| 0 <= k < |Defs(e2.code)| && Defs(e2.code)[k] == l;
        LabelNameInjective(dn1[i], dn2[k]);
      }
    }
  }
}
