/** The state X86FileWriter changes in place, and the methods that change
    it step by step: the instructions and data constants of the file being
    written, the static label counter, and the allocation map that
    allocateStackFrame fills. Each method is proved to leave the state that
    the emitter functions of Emission and the layout functions of Layout
    describe, so the lemmas about those functions hold of the methods. */
module Writing {
  import opened Wrappers
  import opened Errors
  import opened Syntax
  import opened Layout
  import opened X86
  import opened Emission

  class FileWriter {
    /** The target and the declaration tables the writer was built for. */
    const ctx: Context
    /** `code.instructions` of the file being written. */
    var code: seq<Instruction>
    /** `data.constants` of the file being written. */
    var data: seq<DataItem>
    /** The static counter freshLabel draws from. */
    var labelIndex: nat

    /** The writer's state as the emitter functions see it. */
    function State(): Emitter
      reads this
    {
      Emitter(code, data, labelIndex)
    }

    constructor (ctx: Context, st: Emitter)
      ensures this.ctx == ctx && State() == st
    {
      this.ctx := ctx;
      code := st.code;
      data := st.data;
      labelIndex := st.labelIndex;
    }

    /** freshLabel: the label the counter names, the counter advanced. */
    method FreshLabel() returns (l: Label)
      modifies this
      ensures (l, State()) == Emission.FreshLabel(old(State()))
    {
      l := Local(labelIndex);
      labelIndex := labelIndex + 1;
    }

    /** writeToStack: a primitive is stored from HDI, and a compound value
        is copied word by word, from the highest word down, through HAX. */
    method WriteToStack(t: Type, source: Register, base: Register, offset: int) returns (r: Result<(), Error>)
      modifies this
      ensures r.Ok? <==> WriteToStackCode(ctx, t, source, base, offset, old(State())).Ok?
      ensures r.Ok? ==> State() == WriteToStackCode(ctx, t, source, base, offset, old(State())).value
      ensures r.Err? ==> State() == old(State())
    {
      var u := Unwrap(ctx.types, t);
      if u.Err? {
        return Err(u.error);
      }
      var ty := u.value;
      if ty.IsPrimitive() {
        code := code + [Store(HDI, offset, base)];
        return Ok(());
      }
      var width := WidthOf(ctx.target, ctx.types, ty);
      if width.Err? {
        return Err(width.error);
      }
      CopyToStack(source, base, width.value, offset);
      return Ok(());
    }

    /** The copy loop of writeToStack: `width` bytes, one natural word at a
        time from the highest down, each loaded from off `source` into HAX
        and stored off `base` below `offset + width`. */
    method CopyToStack(source: Register, base: Register, width: nat, offset: int)
      modifies this
      ensures code == old(code) + CopySlots(source, base, width, offset + width, width / ctx.target.WidthInBytes(), ctx.target.WidthInBytes())
      ensures data == old(data) && labelIndex == old(labelIndex)
    {
      var w := ctx.target.WidthInBytes();
      var nSlots := width / w;
      ghost var copy := CopySlots(source, base, width, offset + width, nSlots, w);
      var sourceOffset: int := width;
      var targetOffset := offset + width;
      var i := 0;
      while i != nSlots
        invariant 0 <= i <= nSlots
        invariant code == old(code) + copy[..2 * i]
        invariant copy[2 * i..] == CopySlots(source, base, sourceOffset, targetOffset, nSlots - i, w)
        invariant data == old(data) && labelIndex == old(labelIndex)
      {
        CopyStep(copy, i, source, base, sourceOffset, targetOffset, nSlots, w);
        targetOffset := targetOffset - w;
        sourceOffset := sourceOffset - w;
        var pair := [Load(sourceOffset, source, HAX), Store(HAX, targetOffset, base)];
        code := code + pair;
        i := i + 1;
      }
      assert copy[..2 * nSlots] == copy;
    }

    /** readFromStack: a primitive is loaded into `target`; for a compound
        value `target` receives its address. */
    method ReadFromStack(t: Type, source: Register, offset: int, target: Register) returns (r: Result<(), Error>)
      modifies this
      ensures r.Ok? <==> ReadFromStackCode(ctx, t, source, offset, target, old(State())).Ok?
      ensures r.Ok? ==> State() == ReadFromStackCode(ctx, t, source, offset, target, old(State())).value
      ensures r.Err? ==> State() == old(State())
    {
      var u := Unwrap(ctx.types, t);
      if u.Err? {
        return Err(u.error);
      }
      if u.value.IsPrimitive() {
        code := code + [Load(offset, source, target)];
      } else {
        code := code + [RegReg(Mov, source, target), ImmReg(AddImm, offset, target)];
      }
      return Ok(());
    }

    /** addTypeConstant: the descriptor of `t` appended to the data
        constants under `name`. */
    method AddTypeConstant(t: Type, name: Label) returns (r: Result<(), Error>)
      modifies this
      ensures r.Ok? <==> Emission.AddTypeConstant(ctx, t, name, old(State())).Ok?
      ensures r.Ok? ==> State() == Emission.AddTypeConstant(ctx, t, name, old(State())).value
      ensures r.Err? ==> State() == old(State())
    {
      match TypeConstants.TypeDescriptor(ctx.target, ctx.types, t, Some(name))
      case Err(e) =>
        return Err(e);
      case Ok(items) =>
        data := data + items;
        return Ok(());
    }

    /** allocateStackFrame: the parameters and the return slot, then every
        local below the frame pointer; the result is the map and the aligned
        size of the locals area. */
    method AllocateStackFrame(fd: FunDecl, order: seq<string>) returns (r: Result<(Frame, nat), Error>)
      requires OrderFits(ctx.target, ctx.types, fd, order)
      ensures r == StackFrame(ctx.target, ctx.types, fd, order)
    {
      var allocation := AllocateParameters(fd);
      if allocation.Err? {
        return Err(allocation.error);
      }
      var vars := LocalVariableTypes(ctx.target, ctx.types, fd.body, map[]);
      if vars.Err? {
        return Err(vars.error);
      }
      var locals := AllocateLocals(vars.value, order, allocation.value);
      if locals.Err? {
        return Err(locals.error);
      }
      return Ok((locals.value.0, AlignedStackWidth(ctx.target, locals.value.1)));
    }

    /** The parameter part of allocateStackFrame: the parameters bound
        downwards from the top of the caller's area plus the two linkage
        words, then the return slot below them. */
    method AllocateParameters(fd: FunDecl) returns (r: Result<Frame, Error>)
      ensures r == ParameterFrame(ctx.target, ctx.types, fd)
    {
      var target, types := ctx.target, ctx.types;
      var aligned := CallerEnvironmentAlignedWidth(target, types, fd);
      if aligned.Err? {
        return Err(aligned.error);
      }
      assert CallerEnvironmentWidth(target, types, fd).Ok?;
      var allocation: Frame := map[];
      var offset := aligned.value + target.WidthInBytes() * 2;
      var ps := fd.parameters;
      var i := 0;
      while i < |ps|
        invariant 0 <= i <= |ps|
        invariant ParametersWidth(target, types, ps[i..]).Ok?
        invariant BindParameters(target, types, ps, aligned.value + 2 * target.WidthInBytes(), map[]) ==
                  BindParameters(target, types, ps[i..], offset, allocation)
      {
        assert ps[i..][1..] == ps[i + 1..];
        var w := WidthOf(target, types, ps[i].ty).value;
        offset := offset - w;
        allocation := allocation[ps[i].name := offset];
        i := i + 1;
      }
      if !fd.ret.Void? {
        var rw := WidthOf(target, types, fd.ret).value;
        offset := offset - rw;
        allocation := allocation["$" := offset];
      }
      return Ok(allocation);
    }

    /** The locals loop of allocateStackFrame: each local, in the map's
        iteration order `order`, takes the slot just below those already
        placed. */
    method AllocateLocals(vars: map<string, Type>, order: seq<string>, allocation: Frame) returns (r: Result<(Frame, nat), Error>)
      requires forall i | 0 <= i < |order| :: order[i] in vars
      ensures r == LocalsLayout(ctx.target, ctx.types, vars, order, 0, allocation)
    {
      var frame := allocation;
      var count: nat := 0;
      var i := 0;
      while i < |order|
        invariant 0 <= i <= |order|
        invariant LocalsLayout(ctx.target, ctx.types, vars, order, 0, allocation) ==
                  LocalsLayout(ctx.target, ctx.types, vars, order[i..], count, frame)
      {
        assert order[i..][1..] == order[i + 1..];
        var width := WidthOf(ctx.target, ctx.types, vars[order[i]]);
        if width.Err? {
          return Err(width.error);
        }
        count := count + width.value;
        var slot: int := 0 - count;
        frame := frame[order[i] := slot];
        i := i + 1;
      }
      return Ok((frame, count));
    }
  }

  /** One pass of the copy loop: the next two instructions of the copy
      are the load and store of the next word down. */
  lemma CopyStep(copy: seq<Instruction>, i: nat, source: Register, base: Register, srcOff: int, tgtOff: int, n: nat, w: int)
    requires i < n && 2 * i <= |copy|
    requires copy[2 * i..] == CopySlots(source, base, srcOff, tgtOff, n - i, w)
    ensures copy[..2 * i + 2] == copy[..2 * i] + [Load(srcOff - w, source, HAX), Store(HAX, tgtOff - w, base)]
    ensures copy[2 * i + 2..] == CopySlots(source, base, srcOff - w, tgtOff - w, n - i - 1, w)
  {
    var rest := copy[2 * i..];
    assert rest[..2] == [Load(srcOff - w, source, HAX), Store(HAX, tgtOff - w, base)];
    assert copy[..2 * i + 2] == copy[..2 * i] + rest[..2];
    assert copy[2 * i + 2..] == rest[2..];
  }
}
