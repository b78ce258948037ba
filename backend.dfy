/**
 Selection of the backend by architecture, fixed when the code generator
 is constructed, and rendering of a whole instruction sequence.
 */
module Backend {
  import opened Asm
  import ArmBackend
  import Amd64Backend

  function Lines(arch: Arch, i: Instr): seq<string> {
    match arch
    case ArmHf => ArmBackend.Lines(i)
    case Amd64 => Amd64Backend.Lines(i)
  }

  /** The text of `code`: each instruction's lines, in order. */
  function RenderAll(arch: Arch, code: seq<Instr>): seq<string>
    decreases |code|
  {
    if code == [] then [] else Lines(arch, code[0]) + RenderAll(arch, code[1..])
  }

  lemma {:induction false} RenderAllAppend(arch: Arch, a: seq<Instr>, b: seq<Instr>)
    ensures RenderAll(arch, a + b) == RenderAll(arch, a) + RenderAll(arch, b)
    decreases |a|
  {
    if a == [] {
      assert a + b == b;
    } else {
      assert (a + b)[1..] == a[1..] + b;
      RenderAllAppend(arch, a[1..], b);
    }
  }

  /** One more instruction's lines at the end. */
  lemma RenderSnoc(arch: Arch, code: seq<Instr>, i: Instr)
    ensures RenderAll(arch, code + [i]) == RenderAll(arch, code) + Lines(arch, i)
  {
    RenderAllAppend(arch, code, [i]);
    assert [i][1..] == [];
    assert Lines(arch, i) + [] == Lines(arch, i);
  }

  lemma ConcatAssoc(x: seq<string>, y: seq<string>, z: seq<string>)
    ensures (x + y) + z == x + (y + z)
  {
  }

  function Preamble(arch: Arch, stackSize: int): seq<string> {
    match arch
    case ArmHf => ArmBackend.Preamble(stackSize)
    case Amd64 => Amd64Backend.Preamble(stackSize)
  }

  function Postamble(arch: Arch, stackSize: int): seq<string> {
    match arch
    case ArmHf => ArmBackend.Postamble(stackSize)
    case Amd64 => Amd64Backend.Postamble(stackSize)
  }
}
