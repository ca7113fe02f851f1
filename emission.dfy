/** The instruction emitters of the x86 back end (X86FileWriter.java),
    as functions from the emitter state before an emitter runs to the state
    after it. An emitter that throws is an `Err` carrying the exception;
    whatever it appended before throwing goes down with it. */
module Emission {
  import opened Wrappers
  import opened Errors
  import opened Syntax
  import opened Layout
  import opened X86
  import Strings
  import TypeConstants

  /** The code and data sections built so far, and the fresh-label counter. */
  datatype Emitter = Emitter(code: seq<Instruction>, data: seq<DataItem>, labelIndex: nat)

  /** What every emitter reads: the target and the functions and named
      types declared in the file being built. */
  datatype Context = Context(target: Target, functions: map<string, FunDecl>, types: TypeTable)

  function Emit(st: Emitter, more: seq<Instruction>): Emitter {
    st.(code := st.code + more)
  }

  /** freshLabel: the label the counter names, and the counter advanced. */
  function FreshLabel(st: Emitter): (Label, Emitter) {
    (Local(st.labelIndex), st.(labelIndex := st.labelIndex + 1))
  }

  // ---------------------------------------------------------------------
  // Labels
  // ---------------------------------------------------------------------

  /** The local labels an instruction defines. */
  function DefOf(i: Instruction): set<int> {
    if i.LabelDef? && i.defined.Local? then {i.defined.index} else {}
  }

  /** The local labels a code sequence defines. */
  function Defs(code: seq<Instruction>): set<int> {
    if code == [] then {} else DefOf(code[0]) + Defs(code[1..])
  }

  /** The local labels a data sequence names. */
  function DataDefs(data: seq<DataItem>): set<int> {
    if data == [] then {}
    else (if data[0].name.Some? && data[0].name.value.Local? then {data[0].name.value.index} else {}) + DataDefs(data[1..])
  }

  lemma {:induction false} DefsAppend(a: seq<Instruction>, b: seq<Instruction>)
    ensures Defs(a + b) == Defs(a) + Defs(b)
  {
    if a == [] {
      assert a + b == b;
    } else {
      assert (a + b)[1..] == a[1..] + b;
      DefsAppend(a[1..], b);
    }
  }

  lemma {:induction false} DataDefsAppend(a: seq<DataItem>, b: seq<DataItem>)
    ensures DataDefs(a + b) == DataDefs(a) + DataDefs(b)
  {
    if a == [] {
      assert a + b == b;
    } else {
      assert (a + b)[1..] == a[1..] + b;
      DataDefsAppend(a[1..], b);
    }
  }

  lemma DefsSingle(i: Instruction)
    ensures Defs([i]) == DefOf(i)
  {
    assert [i][1..] == [];
  }

  predicate NoLocalDefs(code: seq<Instruction>) {
    forall i | 0 <= i < |code| :: !(code[i].LabelDef? && code[i].defined.Local?)
  }

  lemma {:induction false} NoLocalDefsEmpty(code: seq<Instruction>)
    ensures NoLocalDefs(code) ==> Defs(code) == {}
  {
    if code != [] && NoLocalDefs(code) {
      assert NoLocalDefs(code[1..]) by {
        forall i | 0 <= i < |code[1..]| ensures !(code[1..][i].LabelDef? && code[1..][i].defined.Local?) {
          assert code[1..][i] == code[i + 1];
        }
      }
      NoLocalDefsEmpty(code[1..]);
    }
  }

  /** Data items without a name name no label. */
  lemma {:induction false} UnnamedDataEmpty(data: seq<DataItem>)
    ensures (forall i | 0 <= i < |data| :: data[i].name.None?) ==> DataDefs(data) == {}
  {
    if data != [] && forall i | 0 <= i < |data| :: data[i].name.None? {
      assert forall i | 0 <= i < |data[1..]| :: data[1..][i].name.None? by {
        forall i | 0 <= i < |data[1..]| ensures data[1..][i].name.None? { assert data[1..][i] == data[i + 1]; }
      }
      UnnamedDataEmpty(data[1..]);
    }
  }

  predicate Within(m: set<int>, lo: int, hi: int) {
    forall n | n in m :: lo <= n < hi
  }

  /** The local labels defined by the code and named by the data that
      `st'` adds to `st`. */
  function Added(st: Emitter, st': Emitter): set<int>
    requires |st.code| <= |st'.code| && |st.data| <= |st'.data|
  {
    Defs(st'.code[|st.code|..]) + DataDefs(st'.data[|st.data|..])
  }

  /** `st'` extends `st`: code and data only grow, the counter does not go
      back, and every local label defined or named on the way is one the
      counter handed out on the way. */
  predicate Grows(st: Emitter, st': Emitter) {
    st.code <= st'.code && st.data <= st'.data && st.labelIndex <= st'.labelIndex &&
    Within(Added(st, st'), st.labelIndex, st'.labelIndex)
  }

  lemma AddedSplit(a: Emitter, b: Emitter, c: Emitter)
    requires a.code <= b.code <= c.code && a.data <= b.data <= c.data
    ensures Added(a, c) == Added(a, b) + Added(b, c)
  {
    assert c.code[|a.code|..] == b.code[|a.code|..] + c.code[|b.code|..];
    assert c.data[|a.data|..] == b.data[|a.data|..] + c.data[|b.data|..];
    DefsAppend(b.code[|a.code|..], c.code[|b.code|..]);
    DataDefsAppend(b.data[|a.data|..], c.data[|b.data|..]);
  }

  lemma GrowsTrans(a: Emitter, b: Emitter, c: Emitter)
    requires Grows(a, b) && Grows(b, c)
    ensures Grows(a, c)
  {
    AddedSplit(a, b, c);
  }

  /** Grows composed with the outcome of a later emitter, in the form a
      function body can use. */
  lemma GrowsThen(a: Emitter, b: Emitter, r: Result<Emitter, Error>)
    requires Grows(a, b)
    ensures r.Ok? && Grows(b, r.value) ==> Grows(a, r.value)
  {
    if r.Ok? && Grows(b, r.value) { GrowsTrans(a, b, r.value); }
  }

  lemma GrowsThenPair<T>(a: Emitter, b: Emitter, r: Result<(Emitter, T), Error>)
    requires Grows(a, b)
    ensures r.Ok? && Grows(b, r.value.0) ==> Grows(a, r.value.0)
  {
    if r.Ok? && Grows(b, r.value.0) { GrowsTrans(a, b, r.value.0); }
  }

  lemma GrowsRefl(st: Emitter)
    ensures Grows(st, st)
  {
    assert st.code[|st.code|..] == [] && st.data[|st.data|..] == [];
  }

  lemma GrowsEmit(st: Emitter, more: seq<Instruction>)
    requires NoLocalDefs(more)
    ensures Grows(st, Emit(st, more))
  {
    assert Emit(st, more).code[|st.code|..] == more;
    assert Emit(st, more).data[|st.data|..] == [];
    NoLocalDefsEmpty(more);
  }

  lemma GrowsFresh(st: Emitter)
    ensures Grows(st, FreshLabel(st).1)
  {
    GrowsRefl(st);
  }

  /** Emitting one instruction adds the labels it defines. */
  lemma AddedEmitOne(st: Emitter, i: Instruction)
    ensures Added(st, Emit(st, [i])) == DefOf(i)
  {
    assert Emit(st, [i]).code[|st.code|..] == [i] && Emit(st, [i]).data[|st.data|..] == [];
    DefsSingle(i);
  }

  /** The labels a loop adds: the head, those of the code between the
      head label and the exit jump, and the exit. */
  lemma LoopAdded(st: Emitter, st3: Emitter, st6: Emitter)
    requires st.code <= st3.code && st.data <= st3.data
    requires Emit(st3, [LabelDef(Local(st.labelIndex))]).code <= st6.code && st3.data <= st6.data
    ensures
      var lo := st.labelIndex;
      Added(st, Emit(st6, [Addr(Jmp, Local(lo)), LabelDef(Local(lo + 1))])) ==
        Added(st, st3) + {lo} + Added(Emit(st3, [LabelDef(Local(lo))]), st6) + {lo + 1}
  {
    var lo := st.labelIndex;
    var a := Emit(st3, [LabelDef(Local(lo))]);
    var b := Emit(st6, [Addr(Jmp, Local(lo))]);
    var r := Emit(b, [LabelDef(Local(lo + 1))]);
    assert r == Emit(st6, [Addr(Jmp, Local(lo)), LabelDef(Local(lo + 1))]);
    AddedSplit(st, st3, a);
    AddedSplit(st, a, st6);
    AddedSplit(st, st6, b);
    AddedSplit(st, b, r);
    AddedEmitOne(st3, LabelDef(Local(lo)));
    AddedEmitOne(st6, Addr(Jmp, Local(lo)));
    AddedEmitOne(b, LabelDef(Local(lo + 1)));
  }

  /** A loop: the head label and the exit label drawn first, the head
      defined after the code in front of the loop and the exit defined at
      the very end, around code whose own labels are drawn later. */
  lemma LoopGrows(st: Emitter, st3: Emitter, st6: Emitter)
    requires Grows(st.(labelIndex := st.labelIndex + 2), st3)
    requires Grows(Emit(st3, [LabelDef(Local(st.labelIndex))]), st6)
    ensures Grows(st, Emit(st6, [Addr(Jmp, Local(st.labelIndex)), LabelDef(Local(st.labelIndex + 1))]))
  {
    LoopAdded(st, st3, st6);
  }

  // ---------------------------------------------------------------------
  // Registers
  // ---------------------------------------------------------------------

  predicate NoDuplicates(rs: seq<Register>) {
    forall i, j | 0 <= i < j < |rs| :: rs[i] != rs[j]
  }

  /** List.remove(Object): the list without the first occurrence of `r`. */
  function RemoveFirst(rs: seq<Register>, r: Register): (out: seq<Register>)
    ensures r in rs ==> |out| == |rs| - 1
    ensures r !in rs ==> out == rs
    ensures forall x | x in out :: x in rs
    ensures forall x | x in rs && x != r :: x in out
  {
    if rs == [] then []
    else if rs[0] == r then rs[1..]
    else [rs[0]] + RemoveFirst(rs[1..], r)
  }

  /** Removing a register from a list without duplicates removes it
      entirely and leaves a list without duplicates. */
  lemma {:induction false} RemoveFirstNoDuplicates(rs: seq<Register>, r: Register)
    ensures NoDuplicates(rs) ==> NoDuplicates(RemoveFirst(rs, r)) && r !in RemoveFirst(rs, r)
  {
    if rs != [] && NoDuplicates(rs) {
      assert NoDuplicates(rs[1..]) by {
        forall i, j | 0 <= i < j < |rs[1..]| ensures rs[1..][i] != rs[1..][j] {
          assert rs[1..][i] == rs[i + 1] && rs[1..][j] == rs[j + 1];
        }
      }
      assert rs[0] !in rs[1..] by {
        forall i | 0 <= i < |rs[1..]| ensures rs[1..][i] != rs[0] { assert rs[1..][i] == rs[i + 1]; }
      }
      if rs[0] != r {
        RemoveFirstNoDuplicates(rs[1..], r);
        var rest := RemoveFirst(rs[1..], r);
        assert RemoveFirst(rs, r) == [rs[0]] + rest;
        assert rs[0] !in rest;
      }
    }
  }

  /** The register the right operand of a binary operator is computed
      into, as written: the first free register, which may be the one
      holding the left operand. */
  function RhsRegisterAsWritten(free: seq<Register>, target: Register): (r: Result<Register, Error>)
    ensures r.Ok? <==> free != []
    ensures r.Ok? ==> r.value == free[0]
  {
    if free == [] then Err(IndexOutOfBounds("no free register")) else Ok(free[0])
  }

  /** The register the right operand is computed into: the first of the
      registers that remain free once the left operand's is taken. */
  function RhsRegister(free: seq<Register>, target: Register): (r: Result<Register, Error>)
    ensures r.Ok? <==> RemoveFirst(free, target) != []
    ensures r.Ok? ==> r.value in free && r.value in RemoveFirst(free, target)
    ensures r.Ok? && NoDuplicates(free) ==> r.value != target
  {
    var nFree := RemoveFirst(free, target);
    RemoveFirstNoDuplicates(free, target);
    if nFree == [] then Err(IndexOutOfBounds("no free register")) else Ok(nFree[0])
  }

  // ---------------------------------------------------------------------
  // Moving values between registers and the stack
  // ---------------------------------------------------------------------

  /** The copy loop of writeToStack: `n` words, from the highest down, each
      loaded from below `srcOff` off `source` into HAX and stored below
      `tgtOff` off `base`. */
  function CopySlots(source: Register, base: Register, srcOff: int, tgtOff: int, n: nat, w: int): (r: seq<Instruction>)
    ensures |r| == 2 * n
    decreases n
  {
    if n == 0 then []
    else [Load(srcOff - w, source, HAX), Store(HAX, tgtOff - w, base)] + CopySlots(source, base, srcOff - w, tgtOff - w, n - 1, w)
  }

  lemma {:induction false} CopySlotsNoDefs(source: Register, base: Register, srcOff: int, tgtOff: int, n: nat, w: int)
    ensures NoLocalDefs(CopySlots(source, base, srcOff, tgtOff, n, w))
    decreases n
  {
    if n > 0 {
      var rest := CopySlots(source, base, srcOff - w, tgtOff - w, n - 1, w);
      CopySlotsNoDefs(source, base, srcOff - w, tgtOff - w, n - 1, w);
      var r := CopySlots(source, base, srcOff, tgtOff, n, w);
      forall i | 0 <= i < |r| ensures !(r[i].LabelDef? && r[i].defined.Local?) {
        if i >= 2 { assert r[i] == rest[i - 2]; }
      }
    }
  }

  /** The k-th pair of the copy moves the word `k + 1` words below the
      starting offsets. */
  lemma {:induction false} CopySlotsAt(source: Register, base: Register, srcOff: int, tgtOff: int, n: nat, w: int, k: nat)
    requires k < n
    ensures CopySlots(source, base, srcOff, tgtOff, n, w)[2 * k] == Load(srcOff - w - k * w, source, HAX)
    ensures CopySlots(source, base, srcOff, tgtOff, n, w)[2 * k + 1] == Store(HAX, tgtOff - w - k * w, base)
    decreases k
  {
    var rest := CopySlots(source, base, srcOff - w, tgtOff - w, n - 1, w);
    assert CopySlots(source, base, srcOff, tgtOff, n, w) == [Load(srcOff - w, source, HAX), Store(HAX, tgtOff - w, base)] + rest;
    if k > 0 {
      CopySlotsAt(source, base, srcOff - w, tgtOff - w, n - 1, w, k - 1);
      assert (k - 1) * w + w == k * w;
    }
  }

  /** writeToStack: a value of type `t` held in (or, for a compound type,
      pointed to by) a register is written to `offset` off `base`. A
      primitive is one store, which writes HDI whatever `source` is; a
      compound value of width W is copied word by word, the word at
      displacement d of the source going to `offset + d`, from the highest
      word down to the lowest. */
  function WriteToStackCode(ctx: Context, t: Type, source: Register, base: Register, offset: int, st: Emitter): (r: Result<Emitter, Error>)
    ensures r.Ok? <==> (Unwrap(ctx.types, t).Ok? &&
      (Unwrap(ctx.types, t).value.IsPrimitive() || WidthOf(ctx.target, ctx.types, Unwrap(ctx.types, t).value).Ok?))
    ensures r.Ok? ==> r.value.data == st.data && r.value.labelIndex == st.labelIndex && st.code <= r.value.code
    ensures r.Ok? ==> Grows(st, r.value)
  {
    var u :- Unwrap(ctx.types, t);
    if u.IsPrimitive() then
      GrowsEmit(st, [Store(HDI, offset, base)]);
      Ok(Emit(st, [Store(HDI, offset, base)]))
    else
      var width :- WidthOf(ctx.target, ctx.types, u);
      var w := ctx.target.WidthInBytes();
      CopySlotsNoDefs(source, base, width, offset + width, width / w, w);
      GrowsEmit(st, CopySlots(source, base, width, offset + width, width / w, w));
      Ok(Emit(st, CopySlots(source, base, width, offset + width, width / w, w)))
  }

  lemma WholeWords(W: nat, w: nat)
    requires w == 4 || w == 8
    requires W % w == 0
    ensures (W / w) * w == W
  {
    if w == 4 { assert (W / 4) * 4 == W; } else { assert (W / 8) * 8 == W; }
  }

  /** `delta` copies the W / w words of a value of width W off `source`
      to the same displacements above `offset` off `base`, through HAX:
      the k-th load-store pair moves the word at W - w - k * w, so every
      word is moved once, from the highest, at W - w, to the lowest, at 0. */
  predicate CopiesWords(delta: seq<Instruction>, source: Register, base: Register, W: int, offset: int, w: int)
    requires w == 4 || w == 8
  {
    W % w == 0 && |delta| == 2 * (W / w) && (W / w) * w == W &&
    forall k | 0 <= k < W / w ::
      delta[2 * k] == Load(W - w - k * w, source, HAX) && delta[2 * k + 1] == Store(HAX, offset + W - w - k * w, base)
  }

  lemma CopySlotsCopiesWords(source: Register, base: Register, W: nat, offset: int, w: int)
    requires w == 4 || w == 8
    requires W % w == 0
    ensures CopiesWords(CopySlots(source, base, W, offset + W, W / w, w), source, base, W, offset, w)
  {
    WholeWords(W, w);
    var delta := CopySlots(source, base, W, offset + W, W / w, w);
    forall k | 0 <= k < W / w
      ensures delta[2 * k] == Load(W - w - k * w, source, HAX) && delta[2 * k + 1] == Store(HAX, offset + W - w - k * w, base)
    {
      CopySlotsAt(source, base, W, offset + W, W / w, w, k);
    }
  }

  /** What writeToStack emits: one store of HDI for a primitive, and the
      word-by-word copy of CopiesWords for a compound value. */
  lemma WriteToStackShape(ctx: Context, t: Type, source: Register, base: Register, offset: int, st: Emitter)
    requires WriteToStackCode(ctx, t, source, base, offset, st).Ok?
    ensures
      var u := Unwrap(ctx.types, t).value;
      var delta := WriteToStackCode(ctx, t, source, base, offset, st).value.code[|st.code|..];
      (u.IsPrimitive() ==> delta == [Store(HDI, offset, base)]) &&
      (!u.IsPrimitive() ==>
        CopiesWords(delta, source, base, WidthOf(ctx.target, ctx.types, u).value, offset, ctx.target.WidthInBytes()))
  {
    var u := Unwrap(ctx.types, t).value;
    var r := WriteToStackCode(ctx, t, source, base, offset, st).value;
    if !u.IsPrimitive() {
      var W := WidthOf(ctx.target, ctx.types, u).value;
      var w := ctx.target.WidthInBytes();
      WidthIsWordMultiple(ctx.target, ctx.types, {}, u);
      CopySlotsCopiesWords(source, base, W, offset, w);
      assert r.code[|st.code|..] == CopySlots(source, base, W, offset + W, W / w, w);
    } else {
      assert r.code[|st.code|..] == [Store(HDI, offset, base)];
    }
  }

  /** readFromStack: a primitive is loaded from `offset` off `source`; for
      a compound value the register receives its address. */
  function ReadFromStackCode(ctx: Context, t: Type, source: Register, offset: int, target: Register, st: Emitter): (r: Result<Emitter, Error>)
    ensures r.Ok? <==> Unwrap(ctx.types, t).Ok?
    ensures r.Ok? ==> Grows(st, r.value)
  {
    var u :- Unwrap(ctx.types, t);
    var more := if u.IsPrimitive() then [Load(offset, source, target)]
                else [RegReg(Mov, source, target), ImmReg(AddImm, offset, target)];
    GrowsEmit(st, more);
    Ok(Emit(st, more))
  }

  /** addTypeConstant: the descriptor of `t` appended to the data section
      under `name`; reading the appended items back gives the type. */
  function AddTypeConstant(ctx: Context, t: Type, name: Label, st: Emitter): (r: Result<Emitter, Error>)
    ensures r.Ok? <==> TypeConstants.CanonicalType(ctx.types, {}, t).Ok?
    ensures r.Ok? ==> r.value.code == st.code && r.value.labelIndex == st.labelIndex && st.data <= r.value.data
    ensures r.Ok? ==> TypeConstants.DecodeType(ctx.target, r.value.data[|st.data|..]) ==
                      Some((TypeConstants.CanonicalType(ctx.types, {}, t).value, []))
    ensures r.Ok? ==> Added(st, r.value) == if name.Local? then {name.index} else {}
  {
    TypeConstants.DescriptorRoundTrip(ctx.target, ctx.types, t, Some(name), []);
    match TypeConstants.TypeDescriptor(ctx.target, ctx.types, t, Some(name))
    case Err(e) => Err(e)
    case Ok(items) =>
      var r := st.(data := st.data + items);
      assert r.data[|st.data|..] == items == items + [];
      assert r.code[|st.code|..] == [];
      DescriptorNames(ctx, t, name);
      Ok(r)
  }

  /** A descriptor names one label: the one it is given. */
  lemma DescriptorNames(ctx: Context, t: Type, name: Label)
    requires TypeConstants.TypeDescriptor(ctx.target, ctx.types, t, Some(name)).Ok?
    ensures DataDefs(TypeConstants.TypeDescriptor(ctx.target, ctx.types, t, Some(name)).value) ==
            if name.Local? then {name.index} else {}
  {
    var c := TypeConstants.CanonicalType(ctx.types, {}, t).value;
    TypeConstants.CanonicalIsDescribable(ctx.types, {}, t);
    TypeConstants.EncodeLabelsFirstItem(ctx.target, c, Some(name));
    var items := TypeConstants.Encode(ctx.target, c, Some(name));
    assert forall i | 0 <= i < |items[1..]| :: items[1..][i].name.None? by {
      forall i | 0 <= i < |items[1..]| ensures items[1..][i].name.None? { assert items[1..][i] == items[i + 1]; }
    }
    UnnamedDataEmpty(items[1..]);
  }

  /** A fresh label drawn for a type constant and the constant added under
      it: the one label added is the one drawn. */
  lemma TypeConstantGrows(ctx: Context, t: Type, st: Emitter)
    ensures AddTypeConstant(ctx, t, FreshLabel(st).0, FreshLabel(st).1).Ok? ==>
            Grows(st, AddTypeConstant(ctx, t, FreshLabel(st).0, FreshLabel(st).1).value)
  {
    var (l, st1) := FreshLabel(st);
    var r := AddTypeConstant(ctx, t, l, st1);
    if r.Ok? {
      assert Added(st, r.value) == Added(st1, r.value);
    }
  }

  // ---------------------------------------------------------------------
  // Expressions
  // ---------------------------------------------------------------------

  /** translate(Expr, target, freeRegisters): code leaving the value of `e`
      (or its address, for a compound value) in `target`, drawing scratch
      registers from `free`. */
  function ExprCode(ctx: Context, frame: Frame, e: Expr, target: Register, free: seq<Register>, st: Emitter): (r: Result<Emitter, Error>)
    ensures r.Ok? ==> Grows(st, r.value)
    decreases e, 2
  {
    GrowsRefl(st);
    match e
    case Binary(_, _, _, _) => BinaryCode(ctx, frame, e, target, free, st)
    case Constant(_, _) => ConstantCode(e, target, free, st)
    case Cast(_, _, _) => Ok(st)
    case IndexOf(_, _, _) => Ok(st)
    case Invoke(_, _, _) => InvokeCode(ctx, frame, e, target, free, st)
    case ListConstructor(_, _) => Ok(st)
    case RecordAccess(_, _, _) => RecordAccessCode(ctx, frame, e, target, free, st)
    case RecordConstructor(_, _) => RecordConstructorCode(ctx, frame, e, target, free, st)
    case Unary(_, _, _) => UnaryCode(ctx, frame, e, target, free, st)
    case Variable(_, _) => VariableCode(ctx, frame, e, target, st)
  }

  /** The binary case: the left operand into `target`, the right one into
      the register `RhsRegister` picks, then the operator. */
  function BinaryCode(ctx: Context, frame: Frame, e: Expr, target: Register, free: seq<Register>, st: Emitter): (r: Result<Emitter, Error>)
    requires e.Binary?
    ensures r.Ok? ==> Grows(st, r.value)
    decreases e, 1
  {
    if e.lhs.attr.None? || e.rhs.attr.None? then Err(NullPointer("operand without a type"))
    else
      var st1 :- ExprCode(ctx, frame, e.lhs, target, free, st);
      var rhsTarget :- RhsRegister(free, target);
      var r := BinaryTail(ctx, frame, e, target, free, rhsTarget, st1);
      GrowsThen(st, st1, r);
      r
  }

  /** The binary case as written, with the right operand's register picked
      by `RhsRegisterAsWritten`. */
  function BinaryCodeAsWritten(ctx: Context, frame: Frame, e: Expr, target: Register, free: seq<Register>, st: Emitter): Result<Emitter, Error>
    requires e.Binary?
  {
    if e.lhs.attr.None? || e.rhs.attr.None? then Err(NullPointer("operand without a type"))
    else
      var st1 :- ExprCode(ctx, frame, e.lhs, target, free, st);
      var rhsTarget :- RhsRegisterAsWritten(free, target);
      BinaryTail(ctx, frame, e, target, free, rhsTarget, st1)
  }

  /** After the left operand: the right operand into `rhsTarget` with the
      left operand's register removed from the free ones, then the operator. */
  function BinaryTail(ctx: Context, frame: Frame, e: Expr, target: Register, free: seq<Register>, rhsTarget: Register, st: Emitter): (r: Result<Emitter, Error>)
    requires e.Binary? && e.lhs.attr.Some? && e.rhs.attr.Some?
    ensures r.Ok? ==> Grows(st, r.value)
    decreases e, 0
  {
    var st1 :- ExprCode(ctx, frame, e.rhs, rhsTarget, RemoveFirst(free, target), st);
    var r := OperatorCode(ctx, e.op, e.lhs.attr.value, e.rhs.attr.value, target, rhsTarget, st1);
    GrowsThen(st, st1, r);
    r
  }

  predicate IsComparison(op: BOp) {
    op == EQ || op == NEQ || op == LT || op == LTEQ || op == GT || op == GTEQ
  }

  /** The jump taken when a comparison holds. */
  function JumpFor(op: BOp): AddrOp
    requires IsComparison(op)
  {
    match op
    case EQ => Jz
    case NEQ => Jnz
    case LT => Jl
    case LTEQ => Jle
    case GT => Jg
    case GTEQ => Jge
  }

  /** The arithmetic and logical operators on the operands in `target`
      and `rhsTarget`, leaving the result in `target`. */
  function ArithmeticCode(op: BOp, target: Register, rhsTarget: Register): (r: seq<Instruction>)
    requires !IsComparison(op) && op != APPEND
    ensures NoLocalDefs(r)
  {
    match op
    case AND => [RegReg(And, rhsTarget, target)]
    case OR => [RegReg(Or, rhsTarget, target)]
    case ADD => [RegReg(Add, rhsTarget, target)]
    case SUB => [RegReg(Sub, rhsTarget, target)]
    case MUL => [RegReg(Imul, rhsTarget, target)]
    case DIV => [RegReg(Mov, target, HAX), Unit(Cltd), Reg(Idiv, rhsTarget), RegReg(Mov, HAX, target)]
    case REM => [RegReg(Mov, target, HAX), Unit(Cltd), Reg(Idiv, rhsTarget), RegReg(Mov, HDX, target)]
  }

  /** The operator on the operands in `target` and `rhsTarget`, leaving the
      result in `target`. */
  function OperatorCode(ctx: Context, op: BOp, lhsType: Type, rhsType: Type, target: Register, rhsTarget: Register, st: Emitter): (r: Result<Emitter, Error>)
    ensures r.Ok? ==> Grows(st, r.value)
  {
    if IsComparison(op) then Ok(ComparisonCode(op, target, rhsTarget, st))
    else if op == APPEND then AppendCode(ctx, lhsType, rhsType, target, rhsTarget, st)
    else
      var more := ArithmeticCode(op, target, rhsTarget);
      GrowsEmit(st, more);
      Ok(Emit(st, more))
  }

  /** The compare-and-branch sequence of a comparison. */
  function CompareAndBranch(op: BOp, target: Register, rhsTarget: Register, trueLabel: Label, exitLabel: Label): seq<Instruction>
    requires IsComparison(op)
  {
    [RegReg(Cmp, rhsTarget, HDI), Addr(JumpFor(op), trueLabel),
     ImmReg(MovImm, 0, target), Addr(Jmp, exitLabel),
     LabelDef(trueLabel), ImmReg(MovImm, 1, target), LabelDef(exitLabel)]
  }

  /** A comparison lowered to compare-and-branch: two fresh labels, 1 in
      `target` when the jump is taken and 0 otherwise. The compare reads
      HDI, not `target`. */
  function ComparisonCode(op: BOp, target: Register, rhsTarget: Register, st: Emitter): (r: Emitter)
    requires IsComparison(op)
    ensures Grows(st, r)
  {
    var (trueLabel, st1) := FreshLabel(st);
    var (exitLabel, st2) := FreshLabel(st1);
    ComparisonLabels(op, target, rhsTarget, st.labelIndex);
    assert Emit(st2, CompareAndBranch(op, target, rhsTarget, trueLabel, exitLabel)).code[|st.code|..] ==
           CompareAndBranch(op, target, rhsTarget, trueLabel, exitLabel);
    Emit(st2, CompareAndBranch(op, target, rhsTarget, trueLabel, exitLabel))
  }

  /** A comparison defines its two labels and no other. */
  lemma ComparisonLabels(op: BOp, target: Register, rhsTarget: Register, n: int)
    requires IsComparison(op)
    ensures Defs(CompareAndBranch(op, target, rhsTarget, Local(n), Local(n + 1))) == {n, n + 1}
  {
    var c := CompareAndBranch(op, target, rhsTarget, Local(n), Local(n + 1));
    var a := [RegReg(Cmp, rhsTarget, HDI), Addr(JumpFor(op), Local(n)), ImmReg(MovImm, 0, target), Addr(Jmp, Local(n + 1))];
    var b := [ImmReg(MovImm, 1, target)];
    assert c == a + [LabelDef(Local(n))] + b + [LabelDef(Local(n + 1))];
    DefsAppend(a + [LabelDef(Local(n))] + b, [LabelDef(Local(n + 1))]);
    DefsAppend(a + [LabelDef(Local(n))], b);
    DefsAppend(a, [LabelDef(Local(n))]);
    NoLocalDefsEmpty(a);
    NoLocalDefsEmpty(b);
    DefsSingle(LabelDef(Local(n)));
    DefsSingle(LabelDef(Local(n + 1)));
  }

  /** String append through the runtime library; when only one side is a
      string the other side's type descriptor goes along. */
  function AppendCode(ctx: Context, lhsType: Type, rhsType: Type, target: Register, rhsTarget: Register, st: Emitter): (r: Result<Emitter, Error>)
    ensures r.Ok? ==> Grows(st, r.value)
  {
    var moves := [RegReg(Mov, target, HDI), RegReg(Mov, rhsTarget, HSI)];
    if lhsType.Strung? && rhsType.Strung? then
      var more := moves + [Addr(Call, Library("_str_append")), RegReg(Mov, HAX, target)];
      GrowsEmit(st, more);
      Ok(Emit(st, more))
    else if lhsType.Strung? || rhsType.Strung? then
      var st0 := Emit(st, moves);
      GrowsEmit(st, moves);
      var (typeLabel, st1) := FreshLabel(st0);
      TypeConstantGrows(ctx, if lhsType.Strung? then rhsType else lhsType, st0);
      var st2 :- AddTypeConstant(ctx, if lhsType.Strung? then rhsType else lhsType, typeLabel, st1);
      GrowsTrans(st, st0, st2);
      var routine := if lhsType.Strung? then "_str_left_append" else "_str_right_append";
      var call := [Lea(typeLabel, HIP, HDX), Addr(Call, Library(routine)), RegReg(Mov, HAX, target)];
      GrowsEmit(st2, call);
      GrowsTrans(st, st2, Emit(st2, call));
      Ok(Emit(st2, call))
    else Err(IllegalArgument("list append not implemented"))
  }

  /** The constant case: a fresh label, loaded into `target` when `target`
      is free, naming the string data of a string constant. The casts of
      integer and real constants to Long throw. */
  function ConstantCode(e: Expr, target: Register, free: seq<Register>, st: Emitter): (r: Result<Emitter, Error>)
    requires e.Constant?
    ensures r.Ok? ==> Grows(st, r.value)
  {
    var (name, st1) := FreshLabel(st);
    GrowsFresh(st);
    if target !in free then Ok(st1)
    else
      var st2 := Emit(st1, [Lea(name, HIP, target)]);
      GrowsEmit(st1, [Lea(name, HIP, target)]);
      GrowsTrans(st, st1, st2);
      match e.value
      case StringLit(s) =>
        var st3 := st2.(data := st2.data + [StringData(Some(name), s)]);
        AddedSplit(st, st2, st3);
        assert st3.code[|st2.code|..] == [] && st3.data[|st2.data|..] == [StringData(Some(name), s)];
        assert [StringData(Some(name), s)][1..] == [];
        assert Added(st2, st3) == {st.labelIndex};
        Ok(st3)
      case IntLit(_) => Err(ClassCast("Integer cannot be cast to Long"))
      case RealLit(_) => Err(ClassCast("Double cannot be cast to Long"))
      case _ => Ok(st2)
  }

  /** The invoke case: space for the callee's environment is reserved
      below the stack pointer, each argument is stored into the slot of its
      parameter, the function is called and a returned value is read back
      from the slot below the arguments. */
  function InvokeCode(ctx: Context, frame: Frame, e: Expr, target: Register, free: seq<Register>, st: Emitter): (r: Result<Emitter, Error>)
    requires e.Invoke?
    ensures r.Ok? ==> Grows(st, r.value)
    decreases e, 1
  {
    if e.name !in ctx.functions then Err(NullPointer("no such function"))
    else
      var fd := ctx.functions[e.name];
      var a :- CallerEnvironmentAlignedWidth(ctx.target, ctx.types, fd);
      var st0 := Emit(st, [ImmReg(SubImm, a, HSP)]);
      GrowsEmit(st, [ImmReg(SubImm, a, HSP)]);
      var args :- ArgumentsCode(ctx, frame, e, fd.parameters, 0, a, target, free, st0);
      var st1 := Emit(args.0, [Addr(Call, Function(fd.name))]);
      GrowsEmit(args.0, [Addr(Call, Function(fd.name))]);
      GrowsTrans(st, st0, args.0);
      GrowsTrans(st, args.0, st1);
      if fd.ret.Void? then Ok(st1)
      else
        match WidthOf(ctx.target, ctx.types, fd.ret)
        case Err(err) => Err(err)
        case Ok(rw) =>
          var r := ReadFromStackCode(ctx, fd.ret, HSP, args.1 - rw, target, st1);
          GrowsThen(st, st1, r);
          r
  }

  /** The argument loop of the invoke case from argument `i`, whose slot
      ends at `offset`; the offset reached comes back with the state. */
  function ArgumentsCode(ctx: Context, frame: Frame, e: Expr, ps: seq<Parameter>, i: nat, offset: int,
                         target: Register, free: seq<Register>, st: Emitter): (r: Result<(Emitter, int), Error>)
    requires e.Invoke? && i <= |e.arguments|
    ensures r.Ok? ==> Grows(st, r.value.0)
    decreases e, 0, |e.arguments| - i
  {
    if i == |e.arguments| then GrowsRefl(st); Ok((st, offset))
    else if i >= |ps| then Err(IndexOutOfBounds("more arguments than parameters"))
    else
      var st1 :- ExprCode(ctx, frame, e.arguments[i], target, free, st);
      var w :- WidthOf(ctx.target, ctx.types, ps[i].ty);
      var st2 :- WriteToStackCode(ctx, ps[i].ty, target, HSP, offset - w, st1);
      GrowsTrans(st, st1, st2);
      var r := ArgumentsCode(ctx, frame, e, ps, i + 1, offset - w, target, free, st2);
      GrowsThenPair(st, st2, r);
      r
  }

  /** The record access case: the record's address into `target`, then a
      load from the field's offset. */
  function RecordAccessCode(ctx: Context, frame: Frame, e: Expr, target: Register, free: seq<Register>, st: Emitter): (r: Result<Emitter, Error>)
    requires e.RecordAccess?
    ensures r.Ok? ==> Grows(st, r.value)
    decreases e, 1
  {
    if e.source.attr.None? then Err(NullPointer("record without a type"))
    else
      var u :- Unwrap(ctx.types, e.source.attr.value);
      if !u.Record? then Err(ClassCast("not a record type"))
      else
        var offset :- FieldOffset(ctx.target, ctx.types, u.fields, e.field);
        var st1 :- ExprCode(ctx, frame, e.source, target, free, st);
        GrowsEmit(st1, [Load(offset, target, target)]);
        GrowsTrans(st, st1, Emit(st1, [Load(offset, target, target)]));
        Ok(Emit(st1, [Load(offset, target, target)]))
  }

  function SortedInits(inits: seq<FieldInit>): (r: seq<FieldInit>)
    ensures multiset(r) == multiset(inits) && |r| == |inits|
  {
    Strings.SortBy(inits, (fi: FieldInit) => fi.name)
  }

  /** The record constructor case: an aligned area is reserved below the
      stack pointer, the fields are written into it in name order from the
      last down, and `target` receives the address of the record, which
      ends at the top of the area. */
  function RecordConstructorCode(ctx: Context, frame: Frame, e: Expr, target: Register, free: seq<Register>, st: Emitter): (r: Result<Emitter, Error>)
    requires e.RecordConstructor?
    ensures r.Ok? ==> Grows(st, r.value)
    decreases e, 1
  {
    var sorted := SortedInits(e.inits);
    if e.attr.None? then Err(NullPointer("record without a type"))
    else
      var u :- Unwrap(ctx.types, e.attr.value);
      if !u.Record? then Err(ClassCast("not a record type"))
      else
        var width :- WidthOf(ctx.target, ctx.types, u);
        var padded := AlignedStackWidth(ctx.target, width);
        assert forall q | q in sorted :: q in e.inits by {
          forall q | q in sorted ensures q in e.inits { assert q in multiset(sorted); }
        }
        var st0 := Emit(st, [ImmReg(SubImm, padded, HSP)]);
        GrowsEmit(st, [ImmReg(SubImm, padded, HSP)]);
        var fields :- FieldInitsCode(ctx, frame, e, sorted, |sorted|, u.fields, padded, target, free, st0);
        var address := [RegReg(Mov, HSP, target)] + if padded != width then [ImmReg(AddImm, padded - width, target)] else [];
        GrowsEmit(fields.0, address);
        GrowsTrans(st, st0, fields.0);
        GrowsTrans(st, fields.0, Emit(fields.0, address));
        Ok(Emit(fields.0, address))
  }

  /** The field loop of the record constructor case over the first `i`
      sorted fields, from the last down; each value is computed into
      `target` and written from HDI into the slot of its field's type. */
  function FieldInitsCode(ctx: Context, frame: Frame, e: Expr, sorted: seq<FieldInit>, i: nat, fs: seq<Field>, offset: int,
                          target: Register, free: seq<Register>, st: Emitter): (r: Result<(Emitter, int), Error>)
    requires e.RecordConstructor? && i <= |sorted|
    requires forall q | q in sorted :: q in e.inits
    ensures r.Ok? ==> Grows(st, r.value.0)
    decreases e, 0, i
  {
    if i == 0 then GrowsRefl(st); Ok((st, offset))
    else
      var p := sorted[i - 1];
      assert p in e.inits;
      var st1 :- ExprCode(ctx, frame, p.value, target, free, st);
      match LookupField(fs, p.name)
      case None => Err(IllegalArgument("Unknown type encountered"))
      case Some(ft) =>
        var w :- WidthOf(ctx.target, ctx.types, ft);
        var st2 :- WriteToStackCode(ctx, ft, HDI, HSP, offset - w, st1);
        GrowsTrans(st, st1, st2);
        var r := FieldInitsCode(ctx, frame, e, sorted, i - 1, fs, offset - w, target, free, st2);
        GrowsThenPair(st, st2, r);
        r
  }

  /** The unary case: the operand into `target`, then the operator; `!`
      flips the lowest bit, and the length operator is not supported. */
  function UnaryCode(ctx: Context, frame: Frame, e: Expr, target: Register, free: seq<Register>, st: Emitter): (r: Result<Emitter, Error>)
    requires e.Unary?
    ensures r.Ok? ==> Grows(st, r.value)
    decreases e, 1
  {
    var st1 :- ExprCode(ctx, frame, e.operand, target, free, st);
    if e.uop == LENGTHOF then Err(IllegalArgument("Unknown unary operator"))
    else
      var more := UnaryOperatorCode(e.uop, target);
      GrowsEmit(st1, more);
      GrowsTrans(st, st1, Emit(st1, more));
      Ok(Emit(st1, more))
  }

  /** The code of `!` and of unary minus, on the operand in `target`. */
  function UnaryOperatorCode(uop: UOp, target: Register): (r: seq<Instruction>)
    requires uop != LENGTHOF
    ensures NoLocalDefs(r)
  {
    if uop == NOT then [Reg(Not, target), ImmReg(AndImm, 1, target)] else [Reg(Neg, target)]
  }

  /** The variable case: the variable read from its slot off the frame pointer. */
  function VariableCode(ctx: Context, frame: Frame, e: Expr, target: Register, st: Emitter): (r: Result<Emitter, Error>)
    requires e.Variable?
    ensures r.Ok? ==> Grows(st, r.value)
  {
    if e.name !in frame || e.attr.None? then Err(NullPointer("unallocated or untyped variable"))
    else ReadFromStackCode(ctx, e.attr.value, HBP, frame[e.name], target, st)
  }

  // ---------------------------------------------------------------------
  // Statements
  // ---------------------------------------------------------------------

  /** translate(List<Stmt>): the statements one after another. */
  function StmtsCode(ctx: Context, frame: Frame, ss: seq<Stmt>, st: Emitter): (r: Result<Emitter, Error>)
    ensures r.Ok? ==> Grows(st, r.value)
    decreases ss
  {
    if ss == [] then GrowsRefl(st); Ok(st)
    else
      var st1 :- StmtCode(ctx, frame, ss[0], st);
      var r := StmtsCode(ctx, frame, ss[1..], st1);
      GrowsThen(st, st1, r);
      r
  }

  /** translate(Stmt). Every statement starts with all pool registers free;
      a conditional emits nothing. */
  function StmtCode(ctx: Context, frame: Frame, s: Stmt, st: Emitter): (r: Result<Emitter, Error>)
    ensures r.Ok? ==> Grows(st, r.value)
    decreases s
  {
    GrowsRefl(st);
    match s
    case Assign(_, _) => AssignCode(ctx, frame, s, st)
    case For(_, _, _, _) => ForCode(ctx, frame, s, st)
    case IfElse(_, _, _) => Ok(st)
    case InvokeStmt(call) => ExprCode(ctx, frame, call, HDI, REGISTER_POOL, st)
    case Print(_) => PrintCode(ctx, frame, s, st)
    case Return(_) => ReturnCode(ctx, frame, s, st)
    case Declare(d) => DeclCode(ctx, frame, d, st)
    case While(_, _) => WhileCode(ctx, frame, s, st)
  }

  /** The for case: the declaration, then the head label, the condition
      into HDI and a jump to the exit label when it is 0, the body, the
      increment and a jump back to the head. */
  function ForCode(ctx: Context, frame: Frame, s: Stmt, st: Emitter): (r: Result<Emitter, Error>)
    requires s.For?
    ensures r.Ok? ==> Grows(st, r.value)
    decreases s, 0
  {
    var (head, st1) := FreshLabel(st);
    var (exit, st2) := FreshLabel(st1);
    var st3 :- DeclCode(ctx, frame, s.declaration, st2);
    var st4 :- ExprCode(ctx, frame, s.condition, HDI, REGISTER_POOL, Emit(st3, [LabelDef(head)]));
    var st5 :- StmtsCode(ctx, frame, s.body, Emit(st4, [ImmReg(CmpImm, 0, HDI), Addr(Jz, exit)]));
    var st6 :- StmtCode(ctx, frame, s.increment, st5);
    ForGrows(st, head, exit, st2, st3, st4, st5, st6);
    Ok(Emit(st6, [Addr(Jmp, head), LabelDef(exit)]))
  }

  lemma ForGrows(st: Emitter, head: Label, exit: Label, st2: Emitter, st3: Emitter, st4: Emitter, st5: Emitter, st6: Emitter)
    requires head == Local(st.labelIndex) && exit == Local(st.labelIndex + 1)
    requires st2 == st.(labelIndex := st.labelIndex + 2)
    requires Grows(st2, st3)
    requires Grows(Emit(st3, [LabelDef(head)]), st4)
    requires Grows(Emit(st4, [ImmReg(CmpImm, 0, HDI), Addr(Jz, exit)]), st5)
    requires Grows(st5, st6)
    ensures Grows(st, Emit(st6, [Addr(Jmp, head), LabelDef(exit)]))
  {
    var a := Emit(st3, [LabelDef(head)]);
    var b := Emit(st4, [ImmReg(CmpImm, 0, HDI), Addr(Jz, exit)]);
    GrowsEmit(st4, [ImmReg(CmpImm, 0, HDI), Addr(Jz, exit)]);
    GrowsTrans(a, st4, b);
    GrowsTrans(a, b, st5);
    GrowsTrans(a, st5, st6);
    LoopGrows(st, st3, st6);
  }

  /** The while case: the for case without declaration and increment. */
  function WhileCode(ctx: Context, frame: Frame, s: Stmt, st: Emitter): (r: Result<Emitter, Error>)
    requires s.While?
    ensures r.Ok? ==> Grows(st, r.value)
    decreases s, 0
  {
    var (head, st1) := FreshLabel(st);
    var (exit, st2) := FreshLabel(st1);
    var st3 :- ExprCode(ctx, frame, s.condition, HDI, REGISTER_POOL, Emit(st2, [LabelDef(head)]));
    var st4 :- StmtsCode(ctx, frame, s.body, Emit(st3, [ImmReg(CmpImm, 0, HDI), Addr(Jz, exit)]));
    GrowsRefl(st2);
    ForGrows(st, head, exit, st2, st2, st3, st4, st4);
    Ok(Emit(st4, [Addr(Jmp, head), LabelDef(exit)]))
  }

  /** The print case: the value into HDI and a call of the runtime's
      print routine with a string type descriptor. */
  function PrintCode(ctx: Context, frame: Frame, s: Stmt, st: Emitter): (r: Result<Emitter, Error>)
    requires s.Print?
    ensures r.Ok? ==> Grows(st, r.value)
    decreases s, 0
  {
    var st1 :- ExprCode(ctx, frame, s.expr, HDI, REGISTER_POOL, st);
    var (typeLabel, st2) := FreshLabel(st1);
    TypeConstantGrows(ctx, Strung, st1);
    var st3 :- AddTypeConstant(ctx, Strung, typeLabel, st2);
    var call := [Lea(typeLabel, HIP, HSI), Addr(Call, Library("_print"))];
    GrowsEmit(st3, call);
    GrowsTrans(st, st1, st3);
    GrowsTrans(st, st3, Emit(st3, call));
    Ok(Emit(st3, call))
  }

  /** The assignment case: the right side into HDI, then stored into the
      variable's slot or into the field of the record the left side's
      source points to; an assignment to a list element emits nothing more. */
  function AssignCode(ctx: Context, frame: Frame, s: Stmt, st: Emitter): (r: Result<Emitter, Error>)
    requires s.Assign?
    ensures r.Ok? ==> Grows(st, r.value)
    decreases s, 0
  {
    var st1 :- ExprCode(ctx, frame, s.rhs, HDI, REGISTER_POOL, st);
    match s.lhs
    case Variable(name, attr) =>
      if name !in frame || attr.None? then Err(NullPointer("unallocated or untyped variable"))
      else
        var r := WriteToStackCode(ctx, attr.value, HDI, HBP, frame[name], st1);
        GrowsThen(st, st1, r);
        r
    case RecordAccess(source, field, _) =>
      if source.attr.None? then Err(NullPointer("record without a type"))
      else
        var u :- Unwrap(ctx.types, source.attr.value);
        if !u.Record? then Err(ClassCast("not a record type"))
        else
          var offset :- FieldOffset(ctx.target, ctx.types, u.fields, field);
          var st2 :- ExprCode(ctx, frame, source, HSI, REGISTER_POOL, st1);
          GrowsEmit(st2, [Store(HDI, offset, HSI)]);
          GrowsTrans(st, st1, st2);
          GrowsTrans(st, st2, Emit(st2, [Store(HDI, offset, HSI)]));
          Ok(Emit(st2, [Store(HDI, offset, HSI)]))
    case _ => Ok(st1)
  }

  /** A declaration with an initialiser stores its value into the
      variable's slot; one without emits nothing. */
  function DeclCode(ctx: Context, frame: Frame, d: VarDecl, st: Emitter): (r: Result<Emitter, Error>)
    ensures r.Ok? ==> Grows(st, r.value)
  {
    match d.init
    case None => GrowsRefl(st); Ok(st)
    case Some(e) =>
      var st1 :- ExprCode(ctx, frame, e, HDI, REGISTER_POOL, st);
      if d.name !in frame then Err(NullPointer("unallocated variable"))
      else
        var r := WriteToStackCode(ctx, d.ty, HDI, HBP, frame[d.name], st1);
        GrowsThen(st, st1, r);
        r
  }

  /** The return case: a returned value goes to the return slot "$", and
      every return ends with a jump to the function's exit label, which
      the frame keeps under "$$". */
  function ReturnCode(ctx: Context, frame: Frame, s: Stmt, st: Emitter): (r: Result<Emitter, Error>)
    requires s.Return?
    ensures r.Ok? ==> "$$" in frame && |r.value.code| > 0 && r.value.code[|r.value.code| - 1] == Addr(Jmp, Local(frame["$$"]))
    ensures r.Ok? && s.result.Some? ==> "$" in frame && s.result.value.attr.Some?
    ensures r.Ok? ==> Grows(st, r.value)
    decreases s, 0
  {
    var st1 :- ReturnValueCode(ctx, frame, s.result, st);
    if "$$" !in frame then Err(NullPointer("no exit label"))
    else
      GrowsEmit(st1, [Addr(Jmp, Local(frame["$$"]))]);
      GrowsTrans(st, st1, Emit(st1, [Addr(Jmp, Local(frame["$$"]))]));
      Ok(Emit(st1, [Addr(Jmp, Local(frame["$$"]))]))
  }

  /** The returned value, if any, written to the return slot. */
  function ReturnValueCode(ctx: Context, frame: Frame, result: Option<Expr>, st: Emitter): (r: Result<Emitter, Error>)
    ensures r.Ok? && result.Some? ==> "$" in frame && result.value.attr.Some?
    ensures r.Ok? ==> Grows(st, r.value)
  {
    match result
    case None => GrowsRefl(st); Ok(st)
    case Some(e) =>
      var st1 :- ExprCode(ctx, frame, e, HDI, REGISTER_POOL, st);
      if "$" !in frame || e.attr.None? then Err(NullPointer("no return slot or untyped value"))
      else
        var r := WriteToStackCode(ctx, e.attr.value, HDI, HBP, frame["$"], st1);
        GrowsThen(st, st1, r);
        r
  }

  // ---------------------------------------------------------------------
  // Functions and files
  // ---------------------------------------------------------------------

  /** The entry label of a function and the frame pointer set up. */
  function Prologue(name: string): seq<Instruction> {
    [LabelDef(Function(name)), Reg(Push, HBP), RegReg(Mov, HSP, HBP)]
  }

  /** The epilogue every function ends with, after its exit label. */
  function Epilogue(exit: int): seq<Instruction> {
    [LabelDef(Local(exit)), RegReg(Mov, HBP, HSP), Reg(Pop, HBP), Unit(Ret)]
  }

  /** translate(FunDecl), with the locals of the frame visited in `order`:
      the entry label and prologue, the frame, a fresh exit label kept
      under "$$", the body and the epilogue. */
  function FunctionCode(ctx: Context, fd: FunDecl, order: seq<string>, st: Emitter): (r: Result<Emitter, Error>)
    requires OrderFits(ctx.target, ctx.types, fd, order)
    ensures r.Ok? ==> Grows(st, r.value)
  {
    var st1 := Emit(st, Prologue(fd.name));
    var frame :- StackFrame(ctx.target, ctx.types, fd, order);
    var exit := st1.labelIndex;
    var st2 := Emit(st1.(labelIndex := exit + 1), [ImmReg(SubImm, frame.1, HSP)]);
    var st3 :- StmtsCode(ctx, frame.0["$$" := exit], fd.body, st2);
    FunctionGrows(st, fd.name, frame.1, st3);
    Ok(Emit(st3, Epilogue(exit)))
  }

  /** The labels of a function: the exit label is drawn after the
      prologue and defined by the epilogue, after the body, whose own
      labels are drawn later. */
  lemma FunctionGrows(st: Emitter, name: string, size: int, st3: Emitter)
    requires Grows(Emit(Emit(st, Prologue(name)).(labelIndex := st.labelIndex + 1), [ImmReg(SubImm, size, HSP)]), st3)
    ensures Grows(st, Emit(st3, Epilogue(st.labelIndex)))
  {
    var lo := st.labelIndex;
    var st2 := Emit(Emit(st, Prologue(name)).(labelIndex := lo + 1), [ImmReg(SubImm, size, HSP)]);
    var r := Emit(st3, Epilogue(lo));
    AddedSplit(st, st2, st3);
    AddedSplit(st, st3, r);
    assert st2.code[|st.code|..] == Prologue(name) + [ImmReg(SubImm, size, HSP)];
    assert st2.data[|st.data|..] == [];
    NoLocalDefsEmpty(Prologue(name) + [ImmReg(SubImm, size, HSP)]);
    EpilogueDefs(lo);
    assert r.code[|st3.code|..] == Epilogue(lo) && r.data[|st3.data|..] == [];
  }

  /** The epilogue defines the exit label and no other. */
  lemma EpilogueDefs(exit: int)
    ensures Defs(Epilogue(exit)) == {exit}
  {
    var rest := [RegReg(Mov, HBP, HSP), Reg(Pop, HBP), Unit(Ret)];
    assert Epilogue(exit) == [LabelDef(Local(exit))] + rest;
    DefsAppend([LabelDef(Local(exit))], rest);
    DefsSingle(LabelDef(Local(exit)));
    NoLocalDefsEmpty(rest);
  }

  function BuildContext(target: Target, wf: WhileFile): Context {
    var (functions, types) := DeclTables(wf.declarations, map[], map[]);
    Context(target, functions, types)
  }

  /** Orders fitting the locals of every function declaration. */
  predicate OrdersFit(ctx: Context, ds: seq<Decl>, orders: seq<seq<string>>) {
    |orders| == |ds| && forall i | 0 <= i < |ds| && ds[i].Fun? :: OrderFits(ctx.target, ctx.types, ds[i].fun, orders[i])
  }

  /** The function declarations translated in file order. */
  function FunctionsCode(ctx: Context, ds: seq<Decl>, orders: seq<seq<string>>, st: Emitter): (r: Result<Emitter, Error>)
    requires OrdersFit(ctx, ds, orders)
    ensures r.Ok? ==> Grows(st, r.value)
    decreases |ds|
  {
    GrowsRefl(st);
    if ds == [] then Ok(st)
    else
      var st1 :- if ds[0].Fun? then FunctionCode(ctx, ds[0].fun, orders[0], st) else Ok(st);
      var r := FunctionsCode(ctx, ds[1..], orders[1..], st1);
      GrowsThen(st, st1, r);
      r
  }

  /** addMainLauncher: the entry point calls the While function main. */
  function MainLauncher(): seq<Instruction> {
    [LabelDef(MainEntry), Reg(Push, HBP), Addr(Call, Function("main")), Reg(Pop, HBP), Unit(Ret)]
  }

  /** build: every function, then the launcher; the label counter starts
      where the previous build left it. */
  function BuildCode(target: Target, wf: WhileFile, orders: seq<seq<string>>, labelIndex: nat): (r: Result<Emitter, Error>)
    requires OrdersFit(BuildContext(target, wf), wf.declarations, orders)
    ensures r.Ok? ==> labelIndex <= r.value.labelIndex
    ensures r.Ok? ==> Within(Defs(r.value.code) + DataDefs(r.value.data), labelIndex, r.value.labelIndex)
    ensures r.Ok? ==> |r.value.code| >= |MainLauncher()| && r.value.code[|r.value.code| - |MainLauncher()|..] == MainLauncher()
  {
    var st0 := Emitter([], [], labelIndex);
    var st :- FunctionsCode(BuildContext(target, wf), wf.declarations, orders, st0);
    BuildLabels(st0, st);
    Ok(Emit(st, MainLauncher()))
  }

  /** The whole file: every local label is drawn from the counter. */
  lemma BuildLabels(st0: Emitter, st: Emitter)
    requires st0.code == [] && st0.data == [] && Grows(st0, st)
    ensures Within(Defs(Emit(st, MainLauncher()).code) + DataDefs(st.data), st0.labelIndex, st.labelIndex)
    ensures Emit(st, MainLauncher()).code[|st.code|..] == MainLauncher()
  {
    GrowsEmit(st, MainLauncher());
    GrowsTrans(st0, st, Emit(st, MainLauncher()));
    assert Emit(st, MainLauncher()).code[0..] == Emit(st, MainLauncher()).code;
    assert st.data[0..] == st.data;
  }

  /** A translated function begins with its prologue and ends with the
      epilogue that defines its exit label; nothing before the epilogue
      defines that label, so every jump to it from a return leaves the
      body. */
  lemma FunctionExitLabel(ctx: Context, fd: FunDecl, order: seq<string>, st: Emitter)
    requires OrderFits(ctx.target, ctx.types, fd, order)
    requires FunctionCode(ctx, fd, order, st).Ok?
    ensures var d := FunctionCode(ctx, fd, order, st).value.code[|st.code|..];
      |d| >= 8 && d[..3] == Prologue(fd.name) && d[|d| - 4..] == Epilogue(st.labelIndex) &&
      st.labelIndex !in Defs(d[..|d| - 4])
  {
    var size, st3 := FunctionBody(ctx, fd, order, st);
    ExitLabelAfterBody(st, fd.name, size, st3);
  }

  /** The emitter after the body of a function, before its epilogue. */
  lemma FunctionBody(ctx: Context, fd: FunDecl, order: seq<string>, st: Emitter) returns (size: int, st3: Emitter)
    requires OrderFits(ctx.target, ctx.types, fd, order)
    requires FunctionCode(ctx, fd, order, st).Ok?
    ensures Grows(Emit(Emit(st, Prologue(fd.name)).(labelIndex := st.labelIndex + 1), [ImmReg(SubImm, size, HSP)]), st3)
    ensures FunctionCode(ctx, fd, order, st) == Ok(Emit(st3, Epilogue(st.labelIndex)))
  {
    var st1 := Emit(st, Prologue(fd.name));
    var frame := StackFrame(ctx.target, ctx.types, fd, order).value;
    var exit := st1.labelIndex;
    var st2 := Emit(st1.(labelIndex := exit + 1), [ImmReg(SubImm, frame.1, HSP)]);
    st3 := StmtsCode(ctx, frame.0["$$" := exit], fd.body, st2).value;
    size := frame.1;
    assert exit == st.labelIndex;
  }

  /** The code of a function around a body that only grows the emitter:
      the exit label, drawn before the body, is defined only by the
      epilogue. */
  lemma ExitLabelAfterBody(st: Emitter, name: string, size: int, st3: Emitter)
    requires Grows(Emit(Emit(st, Prologue(name)).(labelIndex := st.labelIndex + 1), [ImmReg(SubImm, size, HSP)]), st3)
    ensures var d := Emit(st3, Epilogue(st.labelIndex)).code[|st.code|..];
      |d| >= 8 && d[..3] == Prologue(name) && d[|d| - 4..] == Epilogue(st.labelIndex) &&
      st.labelIndex !in Defs(d[..|d| - 4])
  {
    var exit := st.labelIndex;
    var head := Prologue(name) + [ImmReg(SubImm, size, HSP)];
    var st2 := Emit(Emit(st, Prologue(name)).(labelIndex := exit + 1), [ImmReg(SubImm, size, HSP)]);
    var body := st3.code[|st2.code|..];
    assert st2.code == st.code + head;
    CodeBetween(st.code, head, st3.code, Epilogue(exit));
    DefsAppend(head, body);
    NoLocalDefsEmpty(head);
  }

  /** Code emitted after `before`: what was put first, what came after
      it, and the tail added last. */
  lemma CodeBetween<T>(before: seq<T>, head: seq<T>, code: seq<T>, tail: seq<T>)
    requires before + head <= code
    ensures var d := (code + tail)[|before|..];
      d[|d| - |tail|..] == tail && d[..|d| - |tail|] == head + code[|before + head|..]
  {
    var d := (code + tail)[|before|..];
    assert d == code[|before|..] + tail;
    assert code[|before|..] == head + code[|before + head|..];
  }
}
