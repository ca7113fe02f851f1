/** The x86 assembly the back end produces: registers (the head of each
    register family on the target), labels, instructions and data items. */
module X86 {
  import opened Wrappers
  import opened Layout

  datatype Register = HAX | HBX | HCX | HDX | HDI | HSI | HBP | HSP | HIP

  /** The registers handed out to expression translation, in order. */
  const REGISTER_POOL: seq<Register> := [HBX, HCX, HDX, HDI, HSI]

  /** Code labels. `Local(n)` is the n-th fresh label ("label" followed by
      n), `Function(f)` the entry of While function f ("wl_" followed by f),
      `Library(s)` a routine of the runtime library and `MainEntry` the
      process entry point "_main". */
  datatype Label = Local(index: int) | Function(name: string) | Library(symbol: string) | MainEntry

  datatype UnitOp = Ret | Cltd
  datatype RegOp = Push | Pop | Idiv | Not | Neg
  datatype RegRegOp = Mov | Add | Sub | Imul | And | Or | Cmp
  datatype ImmRegOp = MovImm | AddImm | SubImm | CmpImm | AndImm
  datatype AddrOp = Jmp | Jz | Jnz | Jl | Jle | Jg | Jge | Call

  datatype Instruction =
    | LabelDef(defined: Label)
    | Unit(uop: UnitOp)
    | Reg(rop: RegOp, reg: Register)
    | RegReg(rrop: RegRegOp, from: Register, to: Register)
    | ImmReg(iop: ImmRegOp, imm: int, to: Register)
      /** mov from, disp(base) */
    | Store(from: Register, disp: int, base: Register)
      /** mov disp(base), to */
    | Load(disp: int, base: Register, to: Register)
    | Addr(aop: AddrOp, dest: Label)
      /** lea address(base), to */
    | Lea(address: Label, base: Register, to: Register)

  /** Items of the data section, named by a label when `name` is present. */
  datatype DataItem =
    | Long(name: Option<Label>, value: int)
    | Quad(name: Option<Label>, value: int)
    | StringData(name: Option<Label>, text: string)

  /** addNaturalWordConstant: a 32-bit word on x86_32, a 64-bit one on x86_64. */
  function Word(target: Target, value: int, name: Option<Label>): (r: DataItem)
    ensures r.name == name && (r.Long? || r.Quad?) && r.value == value
    ensures r.Long? <==> target.arch == X86_32
  {
    match target.arch
    case X86_32 => Long(name, value)
    case X86_64 => Quad(name, value)
  }

  /** The value of a natural word of the target, if `item` is one. */
  function WordValue(target: Target, item: DataItem): (r: Option<int>)
    ensures r.Some? <==> exists v, l :: item == Word(target, v, l)
  {
    match item
    case Long(l, v) =>
      if target.arch == X86_32 then
        assert item == Word(target, v, l);
        Some(v)
      else None
    case Quad(l, v) =>
      if target.arch == X86_64 then
        assert item == Word(target, v, l);
        Some(v)
      else None
    case StringData(_, _) => None
  }

  /** The labels an instruction sequence defines, in order. */
  function DefinedLabels(code: seq<Instruction>): (r: seq<Label>)
    ensures forall l :: l in r <==> LabelDef(l) in code
  {
    if code == [] then []
    else if code[0].LabelDef? then [code[0].defined] + DefinedLabels(code[1..])
    else DefinedLabels(code[1..])
  }
}
