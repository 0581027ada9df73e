/** The emitter of a call to a C function, proved to emit the marshalling code. */
module Ccall {
  import opened Words
  import opened Wrappers
  import opened Mips
  import opened Script
  import opened Emitter32
  import opened Target
  import opened Moves
  import opened ArithCode
  import opened ArithOps
  import opened Machines
  import opened Arithmetic
  import opened ArgMoves
  import opened ArgAssign
  import opened Marshal

  /** Temporaries live during the call: at least one for each register argument. */
  function CallTemps(T: nat, args: seq<Operand>): nat {
    if T < RegArgs(args) then RegArgs(args) else T
  }

  /** The words of saving, calling and restoring are the caller's. */
  datatype Outside = Outside(save: seq<Instr>, call: seq<Instr>, fill: seq<Instr>)

  function AfterCall(t: Target, T: nat, args: seq<Operand>, o: Outside): seq<Instr>
    requires |t.temps| > 0
  {
    o.call + AddCode(t, T, OpReg(t.sp), OpReg(t.sp), Imm(SmallArgs(args))) + o.fill
  }

  function ResultCode(t: Target, T: nat, r: Option<Operand>): seq<Instr>
    requires |t.temps| > 0 && (r.Some? ==> !r.value.Imm?)
  {
    if r.Some? then MoveCode(t, T, r.value, OpReg(V0)) else []
  }

  function CcallCode(t: Target, T: nat, args: seq<Operand>, o: Outside): seq<Instr>
    requires |t.temps| > 0
  {
    o.save + MarshalCode(t, CallTemps(T, args), args) + AfterCall(t, CallTemps(T, args), args, o)
  }

  /** After the call the stack pointer is put back by one addition. */
  lemma SpByAdd(t: Target, T: nat, k: Word)
    requires t.Valid() && 0 < k < 0x8000
    ensures AddCode(t, T, OpReg(t.sp), OpReg(t.sp), Imm(k)) == [Addiu(t.sp, t.sp, k)]
  {
    hide TempAt, AcquireCode;
    HalfFits(k);
  }

  /** The addition undoes the subtraction, whatever the callee does that keeps sp, and does nothing else. */
  lemma StackRestored(t: Target, T: nat, args: seq<Operand>, x: Data, y: Data)
    requires CallOk(t, T, args, x) && R(y, t.sp) == R(x, t.sp) - ArgBytes(args)
    ensures var z := ExecSeq(AddCode(t, T, OpReg(t.sp), OpReg(t.sp), Imm(SmallArgs(args))), y);
            R(z, t.sp) == R(x, t.sp) && z.mem == y.mem && forall q: Reg :: q != t.sp ==> R(z, q) == R(y, q)
  {
    hide ExecSeq, AddCode;
    var k: int := ArgBytes(args);
    NormWord(k);
    SpByAdd(t, T, k);
    ExecOne(Addiu(t.sp, t.sp, k), y);
    NormWord(R(x, t.sp));
  }

  ghost predicate CanCall(m: Machine, args: seq<Operand>)
    reads m, m.reg
  {
    && m.Valid() && |m.t.temps| == ARGS_BY_REG && m.live <= ARGS_BY_REG && m.allowSpill
    && ArgBytes(args) < 0x8000
  }

  lemma RoomInCall(m: Machine, T: nat)
    requires |m.t.temps| == ARGS_BY_REG && T <= ARGS_BY_REG && m.allowSpill
    ensures HeadRoom(m.t, T, 1, m.allowSpill) && HeadRoom(m.t, T, 0, m.allowSpill)
    ensures T < ARGS_BY_REG ==> AcquireCode(m.t, T) == [] && ReleaseCode(m.t, T + 1) == []
  {
  }

  /** Take temporaries until there is one for each register argument. */
  method GrabTemps(e: Emitter, m: Machine, ghost args: seq<Operand>, need: nat) returns (counter: nat)
    requires Ready(e, m) && CanCall(m, args) && need == RegArgs(args)
    modifies e.Repr, m, m.reg
    ensures Ready(e, m) && fresh(e.Repr - old(e.Repr)) && e.jt == old(e.jt) && m.allowSpill == old(m.allowSpill)
    ensures e.script == old(e.script) && m.live == CallTemps(old(m.live), args) == old(m.live) + counter
  {
    hide Emitter.Valid, Machine.Valid, Emits, AcquireCode, HeadRoom;
    counter := 0;
    var n := m.TempsAccessed();
    while n < need
      invariant Ready(e, m) && fresh(e.Repr - old(e.Repr)) && e.jt == old(e.jt) && m.allowSpill == old(m.allowSpill)
      invariant n == m.live == old(m.live) + counter && n <= CallTemps(old(m.live), args)
      invariant e.script == old(e.script)
      decreases need - n
    {
      RoomInCall(m, m.live);
      EmitsNothing(e.script);
      var _ := m.AcquireTemp(e);
      counter := counter + 1;
      n := m.TempsAccessed();
    }
  }

  method GiveTemps(e: Emitter, m: Machine, counter: nat)
    requires Ready(e, m) && |m.t.temps| == ARGS_BY_REG && counter <= m.live <= ARGS_BY_REG && m.allowSpill
    modifies e.Repr, m, m.reg
    ensures AppendedBy(e, m, [], 0 - counter)
  {
    hide Emitter.Valid, Machine.Valid, Emits, ReleaseCode, HeadRoom;
    var i := 0;
    EmitsNothing(e.script);
    while i < counter
      invariant 0 <= i <= counter && AppendedBy(e, m, [], 0 - i)
    {
      RoomInCall(m, m.live - 1);
      NoReloadHere(m);
      var _ := m.ReleaseTemp(e);
      i := i + 1;
    }
  }

  lemma NoReloadHere(m: Machine)
    requires |m.t.temps| == ARGS_BY_REG && 0 < m.live <= ARGS_BY_REG && m.allowSpill
    ensures HeadRoom(m.t, m.live - 1, 1, true) && ReleaseCode(m.t, m.live) == []
  {
  }

  /** Stack arguments first, while every argument is still where it was. */
  method EmitStackArgs(e: Emitter, m: Machine, args: seq<Operand>)
    requires Ready(e, m) && CanCall(m, args) && m.live >= RegArgs(args)
    modifies e.Repr, m, m.reg
    ensures Appended(e, m, StackArgs(m.t, m.live, args, |args|))
  {
    hide Emitter.Valid, Emits, HeadRoom, MoveCode;
    ghost var t, T := m.t, m.live;
    EmitsNothing(e.script);
    var i := ARGS_BY_REG;
    if |args| <= ARGS_BY_REG {
      return;
    }
    while i < |args|
      invariant ARGS_BY_REG <= i <= |args| && CanCall(m, args)
      invariant Appended(e, m, StackArgs(t, T, args, i))
    {
      RoomInCall(m, m.live);
      EmitsAppend(old(e.script), StackArgs(t, T, args, i), MoveCode(t, T, StackArg(t, i), args[i]));
      Move(e, m, TargetDAddr(m.sp, 16 + 4 * (i - ARGS_BY_REG)), args[i]);
      i := i + 1;
    }
  }

  /** The dependency matrix, and the moves that resolve it. */
  method EmitArgMoves(e: Emitter, m: Machine, args: seq<Operand>)
    requires Ready(e, m)
    modifies e.Repr, m, m.reg
    ensures InRegs(Rounds(DependencyGraph(args), -4), ARGS_BY_REG)
    ensures Appended(e, m, ArgCode(m.t, Rounds(DependencyGraph(args), -4), ARGS_BY_REG))
  {
    hide Emitter.Valid, Machine.Valid, Rounds;
    var a := new nat[ARGS_BY_REG, ARGS_BY_REG]((_, _) => 0);
    var i := 0;
    while i < ARGS_BY_REG && i < |args|
      invariant 0 <= i <= ARGS_BY_REG
      invariant forall k, j :: 0 <= k < ARGS_BY_REG && 0 <= j < ARGS_BY_REG ==>
                  a[k, j] == if k < i && k < |args| && args[k] == OpReg(ArgReg(j)) then 1 else 0
      invariant unchanged(e) && unchanged(e.Repr) && unchanged(m) && unchanged(m.reg)
    {
      if args[i].OpReg? && IsArgReg(args[i].reg, ARGS_BY_REG) {
        a[i, args[i].reg - A0] := 1;
      }
      i := i + 1;
    }
    GraphIs(a, DependencyGraph(args));
    AssignArgRegs(e, m, a);
  }

  method EmitLoadArgs(e: Emitter, m: Machine, args: seq<Operand>)
    requires Ready(e, m)
    modifies e.Repr, m, m.reg
    ensures Appended(e, m, LoadArgs(m.t, m.live, args, RegArgs(args)))
  {
    hide Emitter.Valid, Machine.Valid, Emits, MoveCode;
    ghost var t, T := m.t, m.live;
    EmitsNothing(e.script);
    var n := if |args| < ARGS_BY_REG then |args| else ARGS_BY_REG;
    var i := 0;
    while i < n
      invariant 0 <= i <= n && Appended(e, m, LoadArgs(t, T, args, i))
    {
      var other := !(args[i].OpReg? && IsArgReg(args[i].reg, ARGS_BY_REG));
      EmitsAppend(old(e.script), LoadArgs(t, T, args, i), if other then MoveCode(t, T, OpReg(ArgReg(i)), args[i]) else []);
      EmitsNothing(e.script);
      if other {
        Move(e, m, OpReg(ArgReg(i)), args[i]);
      }
      i := i + 1;
    }
  }

  lemma SubNeedsNone(t: Target, T: nat, k: Word)
    requires t.Valid() && 0 < k < 0x8000
    ensures SubNeeds(t, T, OpReg(t.sp), OpReg(t.sp), Imm(k)) == 0 && AddNeeds(t, T, OpReg(t.sp), OpReg(t.sp), Imm(k)) == 0
  {
    hide TempAt, AcquireCode, LoadRegCode;
  }

  method EmitMarshal(e: Emitter, m: Machine, args: seq<Operand>)
    requires Ready(e, m) && CanCall(m, args) && m.live >= RegArgs(args)
    modifies e.Repr, m, m.reg
    ensures Appended(e, m, MarshalCode(m.t, m.live, args))
  {
    hide Emitter.Valid, Emits, HeadRoom, SubCode, Rounds, StackArgs, LoadArgs, ArgCode, InRegs, SubNeeds;
    ghost var t, T, s0 := m.t, m.live, e.script;
    RoundsInRange(args);
    ghost var a, b, c, d := SubCode(t, T, OpReg(t.sp), OpReg(t.sp), Imm(SmallArgs(args))), StackArgs(t, T, args, |args|),
                            ArgCode(t, Rounds(DependencyGraph(args), -4), ARGS_BY_REG), LoadArgs(t, T, args, RegArgs(args));
    NormWord(ArgBytes(args));
    SubNeedsNone(t, T, SmallArgs(args));
    RoomInCall(m, T);
    EmitsAppend(s0, a, b);
    EmitsAppend(s0, a + b, c);
    EmitsAppend(s0, a + b + c, d);
    assert a + b + c + d == a + (b + c + d);
    var sp := OpReg(m.sp);
    MipsSub(e, m, sp, sp, Imm(SmallArgs(args)));
    EmitStackArgs(e, m, args);
    EmitArgMoves(e, m, args);
    EmitLoadArgs(e, m, args);
  }

  /** Back from the call: the stack pointer, the temporaries taken, the registers saved. */
  method EmitAfterCall(e: Emitter, m: Machine, args: seq<Operand>, o: Outside, counter: nat)
    requires Ready(e, m) && CanCall(m, args) && counter <= m.live
    modifies e.Repr, m, m.reg
    ensures AppendedBy(e, m, AfterCall(m.t, old(m.live), args, o), 0 - counter)
  {
    hide Emitter.Valid, Emits, HeadRoom, AddCode, AddNeeds;
    ghost var t, T, s0 := m.t, m.live, e.script;
    ghost var back := AddCode(t, T, OpReg(t.sp), OpReg(t.sp), Imm(SmallArgs(args)));
    NormWord(ArgBytes(args));
    SubNeedsNone(t, T, SmallArgs(args));
    RoomInCall(m, T);
    EmitsAppend(s0, o.call, back);
    EmitsAppend(s0, o.call + back, o.fill);
    EmitsNothing(s0 + Emits(o.call + back));
    var sp := OpReg(m.sp);
    EmitWords(e, m, o.call);
    MipsAdd(e, m, sp, sp, Imm(SmallArgs(args)));
    GiveTemps(e, m, counter);
    EmitWords(e, m, o.fill);
  }

  /** The whole call, and its result moved where it is wanted. */
  method MipsStaticCcall(e: Emitter, m: Machine, args: seq<Operand>, o: Outside, r: Option<Operand>)
    requires Ready(e, m) && CanCall(m, args) && (r.Some? ==> !r.value.Imm?)
    modifies e.Repr, m, m.reg
    ensures Appended(e, m, CcallCode(m.t, m.live, args, o) + ResultCode(m.t, m.live, r))
  {
    hide Emitter.Valid, Machine.Valid, Emits, HeadRoom, MarshalCode, AfterCall, MoveCode;
    ghost var t, T, s0 := m.t, m.live, e.script;
    ghost var hi := CallTemps(T, args);
    ghost var a, b, c, d := o.save, MarshalCode(t, hi, args), AfterCall(t, hi, args, o), ResultCode(t, T, r);
    EmitsAppend(s0, a, b);
    EmitsAppend(s0, a + b, c);
    EmitsAppend(s0, a + b + c, d);
    EmitsNothing(s0 + Emits(a + b + c));
    var counter := GrabTemps(e, m, args, if |args| < ARGS_BY_REG then |args| else ARGS_BY_REG);
    StillCalls(m, args);
    EmitWords(e, m, o.save);
    EmitMarshal(e, m, args);
    EmitAfterCall(e, m, args, o, counter);
    if r.Some? {
      Move(e, m, r.value, OpReg(V0));
    }
  }

  lemma StillCalls(m: Machine, args: seq<Operand>)
    requires m.Valid() && |m.t.temps| == ARGS_BY_REG && m.allowSpill && m.live <= ARGS_BY_REG && ArgBytes(args) < 0x8000
    ensures CanCall(m, args)
  {
  }
}
