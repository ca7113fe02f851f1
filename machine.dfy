/** A small reference semantics for the instructions the emitters produce,
    used to state what emitted code computes. Registers and memory words
    hold unbounded integers; memory is addressed by byte and every access
    reads or writes the one word at that address. Calls, pushes, pops and
    division are outside it. */
module Machine {
  import opened Wrappers
  import opened X86

  /** Register and memory contents, and the difference `dst - src` the
      last compare computed, from which the conditional jumps decide. */
  datatype State = State(regs: Register -> int, mem: int -> int, cmp: int)

  function SetReg(s: State, r: Register, v: int): State {
    s.(regs := x => if x == r then v else s.regs(x))
  }

  function SetMem(s: State, a: int, v: int): State {
    s.(mem := x => if x == a then v else s.mem(x))
  }

  /** One instruction that does not branch; None outside the semantics.
      Two-register forms read `op from, to` and leave the result in `to`. */
  function Exec1(i: Instruction, s: State): Option<State> {
    match i
    case LabelDef(_) => Some(s)
    case RegReg(op, a, b) =>
      (match op
       case Mov => Some(SetReg(s, b, s.regs(a)))
       case Add => Some(SetReg(s, b, s.regs(b) + s.regs(a)))
       case Sub => Some(SetReg(s, b, s.regs(b) - s.regs(a)))
       case Imul => Some(SetReg(s, b, s.regs(b) * s.regs(a)))
       case Cmp => Some(s.(cmp := s.regs(b) - s.regs(a)))
       case And | Or => None)
    case ImmReg(op, k, r) =>
      (match op
       case MovImm => Some(SetReg(s, r, k))
       case AddImm => Some(SetReg(s, r, s.regs(r) + k))
       case SubImm => Some(SetReg(s, r, s.regs(r) - k))
       case CmpImm => Some(s.(cmp := s.regs(r) - k))
       case AndImm => if k == 1 then Some(SetReg(s, r, s.regs(r) % 2)) else None)
    case Reg(op, r) =>
      (match op
       case Not => Some(SetReg(s, r, -s.regs(r) - 1))
       case Neg => Some(SetReg(s, r, -s.regs(r)))
       case Push | Pop | Idiv => None)
    case Store(from, disp, base) => Some(SetMem(s, s.regs(base) + disp, s.regs(from)))
    case Load(disp, base, to) => Some(SetReg(s, to, s.mem(s.regs(base) + disp)))
    case Unit(_) => None
    case Addr(_, _) => None
    case Lea(_, _, _) => None
  }

  /** Straight-line execution. */
  function Exec(code: seq<Instruction>, s: State): Option<State>
    decreases |code|
  {
    if code == [] then Some(s)
    else
      match Exec1(code[0], s)
      case None => None
      case Some(s1) => Exec(code[1..], s1)
  }

  lemma {:induction false} ExecAppend(a: seq<Instruction>, b: seq<Instruction>, s: State)
    ensures Exec(a + b, s) == match Exec(a, s) case None => None case Some(s1) => Exec(b, s1)
    decreases |a|
  {
    if a == [] {
      assert a + b == b;
    } else {
      assert (a + b)[0] == a[0] && (a + b)[1..] == a[1..] + b;
      match Exec1(a[0], s)
      case None =>
      case Some(s1) => ExecAppend(a[1..], b, s1);
    }
  }

  /** Whether a jump is taken after a compare that computed `cmp`. */
  predicate Taken(op: AddrOp, cmp: int) {
    match op
    case Jmp => true
    case Jz => cmp == 0
    case Jnz => cmp != 0
    case Jl => cmp < 0
    case Jle => cmp <= 0
    case Jg => cmp > 0
    case Jge => cmp >= 0
    case Call => false
  }

  /** Where `l` is defined in `code`, if it is. */
  function LabelIndex(code: seq<Instruction>, l: Label): (r: Option<nat>)
    ensures r.Some? ==> r.value < |code| && code[r.value] == LabelDef(l)
    ensures r.None? ==> LabelDef(l) !in code
  {
    if code == [] then None
    else if code[0] == LabelDef(l) then Some(0)
    else
      match LabelIndex(code[1..], l)
      case None => None
      case Some(k) => Some(k + 1)
  }

  /** Execution with jumps from instruction `pc` for at most `fuel` steps;
      the final state once control falls off the end. */
  function Run(code: seq<Instruction>, pc: nat, s: State, fuel: nat): Option<State>
    decreases fuel
  {
    if pc >= |code| then Some(s)
    else if fuel == 0 then None
    else
      match code[pc]
      case Addr(op, l) =>
        if op == Call then None
        else if Taken(op, s.cmp) then
          match LabelIndex(code, l)
          case None => None
          case Some(k) => Run(code, k, s, fuel - 1)
        else Run(code, pc + 1, s, fuel - 1)
      case _ =>
        match Exec1(code[pc], s)
        case None => None
        case Some(s1) => Run(code, pc + 1, s1, fuel - 1)
  }
}
