/** What emitted code computes, stated with the reference machine: the
    compare-and-branch of a comparison, the unary and arithmetic operators,
    and the binary case's choice of register for the right operand. */
module CodeMeaning {
  import opened Wrappers
  import opened Errors
  import opened Syntax
  import opened Layout
  import opened X86
  import opened Machine
  import opened Emission

  /** The comparison `op` on two integers, as the While language means it. */
  predicate Holds(op: BOp, x: int, y: int)
    requires IsComparison(op)
  {
    match op
    case EQ => x == y
    case NEQ => x != y
    case LT => x < y
    case LTEQ => x <= y
    case GT => x > y
    case GTEQ => x >= y
  }

  /** The conditional jump of a comparison is taken after `cmp y, x` exactly
      when the comparison holds of x and y. */
  lemma JumpForHolds(op: BOp, x: int, y: int)
    requires IsComparison(op)
    ensures Taken(JumpFor(op), x - y) <==> Holds(op, x, y)
  {
  }

  /** Where the two labels of a compare-and-branch sit. */
  lemma CompareAndBranchLabels(op: BOp, target: Register, rhsTarget: Register, n: int)
    requires IsComparison(op)
    ensures LabelIndex(CompareAndBranch(op, target, rhsTarget, Local(n), Local(n + 1)), Local(n)) == Some(4)
    ensures LabelIndex(CompareAndBranch(op, target, rhsTarget, Local(n), Local(n + 1)), Local(n + 1)) == Some(6)
  {
    var c := CompareAndBranch(op, target, rhsTarget, Local(n), Local(n + 1));
    assert c[1..][1..][1..][1..] == [LabelDef(Local(n)), ImmReg(MovImm, 1, target), LabelDef(Local(n + 1))];
  }

  /** A comparison leaves 1 in `target` when it holds of HDI and
      `rhsTarget`, and 0 otherwise, and changes no other register and no
      memory. It compares HDI, which holds the left operand only when
      `target` is HDI. */
  lemma ComparisonComputes(op: BOp, target: Register, rhsTarget: Register, n: int, s: State, fuel: nat)
    requires IsComparison(op) && fuel >= 5
    ensures var r := Run(CompareAndBranch(op, target, rhsTarget, Local(n), Local(n + 1)), 0, s, fuel);
      r.Some? && r.value.mem == s.mem &&
      r.value.regs(target) == (if Holds(op, s.regs(HDI), s.regs(rhsTarget)) then 1 else 0) &&
      forall x :: x != target ==> r.value.regs(x) == s.regs(x)
  {
    var c := CompareAndBranch(op, target, rhsTarget, Local(n), Local(n + 1));
    CompareAndBranchLabels(op, target, rhsTarget, n);
    JumpForHolds(op, s.regs(HDI), s.regs(rhsTarget));
    var s1 := s.(cmp := s.regs(HDI) - s.regs(rhsTarget));
    assert Run(c, 0, s, fuel) == Run(c, 1, s1, fuel - 1);
    if Holds(op, s.regs(HDI), s.regs(rhsTarget)) {
      assert Run(c, 1, s1, fuel - 1) == Run(c, 4, s1, fuel - 2);
      assert Run(c, 4, s1, fuel - 2) == Run(c, 5, s1, fuel - 3);
      assert Run(c, 5, s1, fuel - 3) == Run(c, 6, SetReg(s1, target, 1), fuel - 4);
      assert Run(c, 6, SetReg(s1, target, 1), fuel - 4) == Some(SetReg(s1, target, 1));
    } else {
      assert Run(c, 1, s1, fuel - 1) == Run(c, 2, s1, fuel - 2);
      assert Run(c, 2, s1, fuel - 2) == Run(c, 3, SetReg(s1, target, 0), fuel - 3);
      assert Run(c, 3, SetReg(s1, target, 0), fuel - 3) == Run(c, 6, SetReg(s1, target, 0), fuel - 4);
      assert Run(c, 6, SetReg(s1, target, 0), fuel - 4) == Some(SetReg(s1, target, 0));
    }
  }

  /** `!` maps an even value (false is 0) to 1 and an odd one (true is 1)
      to 0; unary minus negates. */
  lemma UnaryComputes(uop: UOp, target: Register, s: State)
    requires uop != LENGTHOF
    ensures var r := Exec(UnaryOperatorCode(uop, target), s);
      r.Some? && r.value.mem == s.mem &&
      r.value.regs(target) == (if uop == NEG then -s.regs(target) else if s.regs(target) % 2 == 0 then 1 else 0) &&
      forall x :: x != target ==> r.value.regs(x) == s.regs(x)
  {
    var v := s.regs(target);
    if uop == NOT {
      var s1 := SetReg(s, target, -v - 1);
      var s2 := SetReg(s1, target, (-v - 1) % 2);
      assert Exec1(Reg(Not, target), s) == Some(s1);
      assert Exec1(ImmReg(AndImm, 1, target), s1) == Some(s2);
      assert Exec(UnaryOperatorCode(uop, target), s) == Some(s2) by {
        assert UnaryOperatorCode(uop, target)[1..] == [ImmReg(AndImm, 1, target)];
        assert Exec([ImmReg(AndImm, 1, target)], s1) == Exec([], s2);
      }
      assert (-v - 1) % 2 == (if v % 2 == 0 then 1 else 0) by {
        ModNegation(v);
      }
    } else {
      var s1 := SetReg(s, target, -v);
      assert Exec1(Reg(Neg, target), s) == Some(s1);
      assert Exec(UnaryOperatorCode(uop, target), s) == Exec([], s1);
    }
  }

  lemma ModNegation(v: int)
    ensures (-v - 1) % 2 == (if v % 2 == 0 then 1 else 0)
  {
    var q := v / 2;
    assert v == 2 * q + v % 2;
    if v % 2 == 0 {
      assert -v - 1 == 2 * (-q - 1) + 1;
    } else {
      assert -v - 1 == 2 * (-q - 1);
    }
  }

  /** The integer meaning of the additive and multiplicative operators. */
  function Arithmetic(op: BOp, x: int, y: int): int
    requires op == ADD || op == SUB || op == MUL
  {
    match op
    case ADD => x + y
    case SUB => x - y
    case MUL => x * y
  }

  /** `+`, `-` and `*` leave `target op rhsTarget` in `target`. */
  lemma ArithmeticComputes(op: BOp, target: Register, rhsTarget: Register, s: State)
    requires op == ADD || op == SUB || op == MUL
    ensures var r := Exec(ArithmeticCode(op, target, rhsTarget), s);
      r.Some? && r.value.regs(target) == Arithmetic(op, s.regs(target), s.regs(rhsTarget))
  {
  }

  // ---------------------------------------------------------------------
  // The right operand's register
  // ---------------------------------------------------------------------

  /** Two integer variables `b` and `c` in the frame, at -8 and -16. */
  function SampleFrame(): Frame {
    map["b" := -8, "c" := -16]
  }

  function SampleContext(): Context {
    Context(Target(X86_64, Linux), map[], map[])
  }

  /** The expression `b + c`. */
  function SampleSum(): Expr {
    Binary(ADD, Variable("b", Some(Int)), Variable("c", Some(Int)), Some(Int))
  }

  /** The registers still free in the right operand of `a + (b + c)`
      computed into HDI: the pool without HDI. */
  const SAMPLE_FREE: seq<Register> := [HBX, HCX, HDX, HSI]

  /** The sample machine: b holds 1 and c holds 2. */
  function SampleState(): State {
    State(x => if x == HBP then 1000 else 0, a => if a == 992 then 1 else if a == 984 then 2 else 0, 0)
  }

  /** An integer variable is loaded from its slot off the frame pointer. */
  lemma IntVariableCode(ctx: Context, frame: Frame, name: string, target: Register, free: seq<Register>, st: Emitter)
    requires name in frame
    ensures ExprCode(ctx, frame, Variable(name, Some(Int)), target, free, st) == Ok(Emit(st, [Load(frame[name], HBP, target)]))
  {
    assert Unwrap(ctx.types, Int) == Ok(Int);
  }

  /** What readFromStack's code computes: a primitive value is loaded from
      `offset` off `source` into `target`, and for a compound value `target`
      receives the address `source + offset`. No other register, no memory
      word and no data item changes. */
  lemma ReadFromStackComputes(ctx: Context, t: Type, source: Register, offset: int, target: Register, st: Emitter, s: State)
    requires ReadFromStackCode(ctx, t, source, offset, target, st).Ok?
    ensures var r := ReadFromStackCode(ctx, t, source, offset, target, st).value;
            var u := Unwrap(ctx.types, t).value;
            var x := Exec(r.code[|st.code|..], s);
            r.data == st.data && r.labelIndex == st.labelIndex && st.code <= r.code &&
            x.Some? && x.value.mem == s.mem && x.value.cmp == s.cmp &&
            x.value.regs(target) == (if u.IsPrimitive() then s.mem(s.regs(source) + offset) else s.regs(source) + offset) &&
            forall q :: q != target ==> x.value.regs(q) == s.regs(q)
  {
    var r := ReadFromStackCode(ctx, t, source, offset, target, st).value;
    var u := Unwrap(ctx.types, t).value;
    if u.IsPrimitive() {
      assert r.code[|st.code|..] == [Load(offset, source, target)];
    } else {
      var s1 := SetReg(s, target, s.regs(source));
      var s2 := SetReg(s1, target, s.regs(source) + offset);
      var code := [RegReg(Mov, source, target), ImmReg(AddImm, offset, target)];
      assert r.code[|st.code|..] == code;
      assert Exec1(RegReg(Mov, source, target), s) == Some(s1);
      assert Exec1(ImmReg(AddImm, offset, target), s1) == Some(s2);
      assert Exec(code, s) == Some(s2) by {
        assert code[1..] == [ImmReg(AddImm, offset, target)];
        assert Exec([ImmReg(AddImm, offset, target)], s1) == Exec([], s2);
      }
    }
  }

  /** `b + c` with the right operand computed into `rhsTarget`. */
  lemma SampleSumCode(rhsTarget: Register)
    ensures BinaryTail(SampleContext(), SampleFrame(), SampleSum(), HBX, SAMPLE_FREE, rhsTarget, Emitter([Load(-8, HBP, HBX)], [], 0)) ==
      Ok(Emitter([Load(-8, HBP, HBX), Load(-16, HBP, rhsTarget), RegReg(Add, rhsTarget, HBX)], [], 0))
  {
    var st1 := Emitter([Load(-8, HBP, HBX)], [], 0);
    var st2 := Emitter([Load(-8, HBP, HBX), Load(-16, HBP, rhsTarget)], [], 0);
    IntVariableCode(SampleContext(), SampleFrame(), "c", rhsTarget, RemoveFirst(SAMPLE_FREE, HBX), st1);
    assert Emit(st1, [Load(-16, HBP, rhsTarget)]) == st2;
    AddCode(SampleContext(), HBX, rhsTarget, st2);
    assert Emit(st2, [RegReg(Add, rhsTarget, HBX)]) == Emitter([Load(-8, HBP, HBX), Load(-16, HBP, rhsTarget), RegReg(Add, rhsTarget, HBX)], [], 0);
  }

  /** Once the left operand is in `target` and a register is picked for the
      right one, the binary case goes on with BinaryTail. */
  lemma BinaryCodeSplits(ctx: Context, frame: Frame, e: Expr, target: Register, free: seq<Register>, st: Emitter, st1: Emitter, rhsTarget: Register)
    requires e.Binary? && e.lhs.attr.Some? && e.rhs.attr.Some?
    requires ExprCode(ctx, frame, e.lhs, target, free, st) == Ok(st1)
    requires RhsRegister(free, target) == Ok(rhsTarget)
    ensures BinaryCode(ctx, frame, e, target, free, st) == BinaryTail(ctx, frame, e, target, free, rhsTarget, st1)
  {
  }

  /** The same for the binary case as written. */
  lemma BinaryCodeAsWrittenSplits(ctx: Context, frame: Frame, e: Expr, target: Register, free: seq<Register>, st: Emitter, st1: Emitter, rhsTarget: Register)
    requires e.Binary? && e.lhs.attr.Some? && e.rhs.attr.Some?
    requires ExprCode(ctx, frame, e.lhs, target, free, st) == Ok(st1)
    requires RhsRegisterAsWritten(free, target) == Ok(rhsTarget)
    ensures BinaryCodeAsWritten(ctx, frame, e, target, free, st) == BinaryTail(ctx, frame, e, target, free, rhsTarget, st1)
  {
  }

  /** `b`, the left operand of the sample, is loaded into HBX. */
  lemma SampleLeftOperand()
    ensures ExprCode(SampleContext(), SampleFrame(), SampleSum().lhs, HBX, SAMPLE_FREE, Emitter([], [], 0)) ==
            Ok(Emitter([Load(-8, HBP, HBX)], [], 0))
  {
    IntVariableCode(SampleContext(), SampleFrame(), "b", HBX, SAMPLE_FREE, Emitter([], [], 0));
    assert Emit(Emitter([], [], 0), [Load(-8, HBP, HBX)]) == Emitter([Load(-8, HBP, HBX)], [], 0);
  }

  /** Integer addition is a single add. */
  lemma AddCode(ctx: Context, target: Register, rhsTarget: Register, st: Emitter)
    ensures OperatorCode(ctx, ADD, Int, Int, target, rhsTarget, st) == Ok(Emit(st, [RegReg(Add, rhsTarget, target)]))
  {
  }

  /** As written, `b + c` into HBX also computes `c` into HBX, the first
      free register, over `b`; the code then adds HBX to itself and leaves
      4 where 3 is meant. */
  lemma SumAsWrittenOverwritesLeft()
    ensures BinaryCodeAsWritten(SampleContext(), SampleFrame(), SampleSum(), HBX, SAMPLE_FREE, Emitter([], [], 0)).Ok?
    ensures var code := BinaryCodeAsWritten(SampleContext(), SampleFrame(), SampleSum(), HBX, SAMPLE_FREE, Emitter([], [], 0)).value.code;
      code == [Load(-8, HBP, HBX), Load(-16, HBP, HBX), RegReg(Add, HBX, HBX)] &&
      Exec(code, SampleState()).Some? && Exec(code, SampleState()).value.regs(HBX) == 4
  {
    SampleLeftOperand();
    assert RhsRegisterAsWritten(SAMPLE_FREE, HBX) == Ok(HBX);
    BinaryCodeAsWrittenSplits(SampleContext(), SampleFrame(), SampleSum(), HBX, SAMPLE_FREE, Emitter([], [], 0),
                              Emitter([Load(-8, HBP, HBX)], [], 0), HBX);
    SampleSumCode(HBX);
    SampleRun(HBX);
  }

  /** The corrected choice computes `c` into HCX and leaves 3 in HBX. */
  lemma SumComputes()
    ensures BinaryCode(SampleContext(), SampleFrame(), SampleSum(), HBX, SAMPLE_FREE, Emitter([], [], 0)).Ok?
    ensures var code := BinaryCode(SampleContext(), SampleFrame(), SampleSum(), HBX, SAMPLE_FREE, Emitter([], [], 0)).value.code;
      code == [Load(-8, HBP, HBX), Load(-16, HBP, HCX), RegReg(Add, HCX, HBX)] &&
      Exec(code, SampleState()).Some? && Exec(code, SampleState()).value.regs(HBX) == 3
  {
    SampleLeftOperand();
    assert RemoveFirst(SAMPLE_FREE, HBX) == [HCX, HDX, HSI];
    assert RhsRegister(SAMPLE_FREE, HBX) == Ok(HCX);
    BinaryCodeSplits(SampleContext(), SampleFrame(), SampleSum(), HBX, SAMPLE_FREE, Emitter([], [], 0),
                     Emitter([Load(-8, HBP, HBX)], [], 0), HCX);
    SampleSumCode(HCX);
    SampleRun(HCX);
  }

  /** The sample code on the sample machine: with the right operand in
      HCX the sum is 3, with it in HBX, over the left one, 4. */
  lemma SampleRun(rhsTarget: Register)
    requires rhsTarget == HBX || rhsTarget == HCX
    ensures var r := Exec([Load(-8, HBP, HBX), Load(-16, HBP, rhsTarget), RegReg(Add, rhsTarget, HBX)], SampleState());
      r.Some? && r.value.regs(HBX) == if rhsTarget == HBX then 4 else 3
  {
    var code := [Load(-8, HBP, HBX), Load(-16, HBP, rhsTarget), RegReg(Add, rhsTarget, HBX)];
    var s1 := Exec1(code[0], SampleState()).value;
    assert s1.regs(HBX) == 1 && s1.regs(HBP) == 1000 && s1.mem == SampleState().mem;
    var s2 := Exec1(code[1], s1).value;
    assert s2.regs(rhsTarget) == 2;
    assert rhsTarget == HCX ==> s2.regs(HBX) == 1;
    assert Exec(code, SampleState()) == Exec(code[1..], s1);
    assert Exec(code[1..], s1) == Exec(code[2..], s2);
    var s3 := Exec1(code[2], s2).value;
    assert code[2..][1..] == [];
    assert Exec(code[2..], s2) == Some(s3);
  }

  /** In general the corrected choice never computes the right operand into
      the register holding the left one, and the right operand's own free
      registers exclude both. */
  lemma RhsRegisterSeparate(free: seq<Register>, target: Register)
    requires NoDuplicates(free) && target in free
    ensures RhsRegister(free, target).Ok? <==> |free| >= 2
    ensures RhsRegister(free, target).Ok? ==>
      RhsRegister(free, target).value != target && target !in RemoveFirst(free, target)
  {
    RemoveFirstNoDuplicates(free, target);
  }
}
