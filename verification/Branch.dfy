/** The branch emitters, each proved to script exactly its fork. */
module Branch {
  import opened Words
  import opened Mips
  import opened Script
  import opened Emitter32
  import opened Target
  import opened Moves
  import opened ArithCode
  import opened ArithOps
  import opened BranchCode
  import opened Machines
  import opened Arithmetic

  function MarkOf(dest: Dest): Ev {
    match dest
    case ToLine(line) => Ev.BranchPc(line)
    case ToLocal(l, isNext) => Ev.BranchLocal(l, isNext)
  }

  predicate DestOk(dest: Dest) {
    dest.ToLocal? ==> dest.local < NR_LOCAL_LABELS
  }

  /** The straight-line part, then the branch with its mark, then the delay slot. */
  function ForkScript(f: Fork, dest: Dest): seq<Ev> {
    Emits(f.pre) + [MarkOf(dest), Emit(f.br), Emit(f.slot)]
  }

  /** Note where the branch about to be emitted goes. */
  method MipsBranch(e: Emitter, m: Machine, dest: Dest)
    requires Ready(e, m) && DestOk(dest)
    modifies e.Repr
    ensures Scripted(e, m, [MarkOf(dest)])
  {
    match dest {
      case ToLine(line) => e.BranchPc(line);
      case ToLocal(l, isNext) => e.BranchLocal(l, isNext);
    }
  }

  method LabelLocalAt(e: Emitter, m: Machine, l: nat)
    requires Ready(e, m) && l < NR_LOCAL_LABELS
    modifies e.Repr
    ensures Scripted(e, m, [Ev.LabelLocal(l)])
  {
    hide Machine.Valid;
    e.LabelLocal(l);
  }

  method EmitBranch(e: Emitter, m: Machine, br: Instr, dest: Dest)
    requires Ready(e, m) && DestOk(dest)
    modifies e.Repr
    ensures Scripted(e, m, [MarkOf(dest), Emit(br)])
  {
    hide Emitter.Valid, Machine.Valid;
    MipsBranch(e, m, dest);
    Encode(e, m, br);
    EmitsOne(br);
    assert old(e.script) + [MarkOf(dest)] + [Emit(br)] == old(e.script) + [MarkOf(dest), Emit(br)];
  }

  lemma ForkAppend(s: seq<Ev>, f: Fork, dest: Dest)
    ensures s + Emits(f.pre) + [MarkOf(dest), Emit(f.br)] + Emits([f.slot]) == s + ForkScript(f, dest)
  {
    EmitsOne(f.slot);
  }

  const JUMP: Fork := Fork([], Beq(ZERO, ZERO, 0), NOP)

  /** An unconditional branch within the function. */
  method MipsB(e: Emitter, m: Machine, dest: Dest)
    requires Ready(e, m) && DestOk(dest)
    modifies e.Repr
    ensures Scripted(e, m, ForkScript(JUMP, dest))
  {
    hide Emitter.Valid, Machine.Valid, Emits;
    EmitsNothing(e.script);
    ForkAppend(e.script, JUMP, dest);
    EmitBranch(e, m, Beq(ZERO, ZERO, 0), dest);
    Encode(e, m, NOP);
  }

  function JumpCode(t: Target, T: nat, target: Operand): seq<Instr>
    requires |t.temps| > 0 && (target.Imm? ==> target.k >= 0)
  {
    match target
    case Imm(k) => [J(k / 4), NOP]
    case OpReg(r) => [Jr(r), NOP]
    case DAddr(_, _) => LoadTemp(t, T, target) + [Jr(TempAt(t, T)), ReleaseSlot(t, T + 1)]
  }

  /** An unconditional branch to an absolute address, given directly or held somewhere. */
  method MipsBAbs(e: Emitter, m: Machine, target: Operand)
    requires Ready(e, m) && HeadRoom(m.t, m.live, 1, m.allowSpill) && (target.Imm? ==> target.k >= 0)
    modifies e.Repr, m, m.reg
    ensures Appended(e, m, JumpCode(m.t, m.live, target))
  {
    hide Emitter.Valid, Machine.Valid, Emits, HeadRoom, AcquireCode, ReleaseSlot, ReleaseCode;
    match target {
      case Imm(k) =>
        EmitsAppend(e.script, [J(k / 4)], [NOP]);
        assert [J(k / 4)] + [NOP] == [J(k / 4), NOP];
        Encode(e, m, J(k / 4));
        Encode(e, m, NOP);
      case OpReg(r) =>
        EmitsAppend(e.script, [Jr(r)], [NOP]);
        assert [Jr(r)] + [NOP] == [Jr(r), NOP];
        Encode(e, m, Jr(r));
        Encode(e, m, NOP);
      case DAddr(_, _) =>
        SpillIrrelevant(m.t, m.live, 1, m.allowSpill);
        var r := FetchTemp(e, m, target);
        Encode(e, m, Jr(r));
        ghost var T := m.live - 1;
        EmitsAppend(old(e.script), LoadTemp(m.t, T, target), [Jr(r)]);
        EmitsAppend(old(e.script), LoadTemp(m.t, T, target) + [Jr(r)], [ReleaseSlot(m.t, T + 1)]);
        assert LoadTemp(m.t, T, target) + [Jr(r)] + [ReleaseSlot(m.t, T + 1)] == LoadTemp(m.t, T, target) + [Jr(r), ReleaseSlot(m.t, T + 1)];
        ReleaseOrNop(e, m);
    }
  }

  /** Acquire a temporary and move an operand into it. */
  method FetchTemp(e: Emitter, m: Machine, o: Operand) returns (r: Reg)
    requires Ready(e, m) && HeadRoom(m.t, m.live, 1, m.allowSpill) && !o.OpReg?
    modifies e.Repr, m, m.reg
    ensures r == TempAt(m.t, old(m.live)) && AppendedBy(e, m, LoadTemp(m.t, old(m.live), o), 1)
  {
    hide Emitter.Valid, Machine.Valid, Emits, HeadRoom, AcquireCode, LoadRegCode;
    r := m.AcquireTemp(e);
    EmitsAppend(old(e.script), AcquireCode(m.t, old(m.live)), LoadRegCode(o, r, false));
    Move(e, m, OpReg(r), o);
  }

  /** Exactly one instruction for the delay slot, whether or not the release reloads. */
  method ReleaseOrNop(e: Emitter, m: Machine)
    requires Ready(e, m) && m.live > 0 && HeadRoom(m.t, m.live - 1, 1, true)
    modifies e.Repr, m, m.reg
    ensures AppendedBy(e, m, [ReleaseSlot(m.t, old(m.live))], -1)
  {
    hide Emitter.Valid, Emits, HeadRoom, SlotNo;
    EmitsNothing(e.script);
    var reloaded := m.ReleaseTemp(e);
    if !reloaded {
      Encode(e, m, NOP);
    }
  }

  method ReleaseOne(e: Emitter, m: Machine)
    requires Ready(e, m) && m.live > 0 && HeadRoom(m.t, m.live - 1, 1, true)
    modifies e.Repr, m, m.reg
    ensures AppendedBy(e, m, ReleaseCode(m.t, old(m.live)), -1)
  {
    var _ := m.ReleaseTemp(e);
  }

  lemma RoomOneTwo(m: Machine)
    requires RoomForTwo(m)
    ensures HeadRoom(m.t, m.live, 1, m.allowSpill) && HeadRoom(m.t, m.live + 1, 1, m.allowSpill)
    ensures HeadRoom(m.t, m.live, 1, true) && HeadRoom(m.t, m.live + 1, 1, true)
  {
    FewerRoom(m.t, m.live, 2, 1, m.allowSpill);
    FewerRoom(m.t, m.live, 2, 2, m.allowSpill);
  }

  /** The instruction selection of beq and bne. */
  method DoEquv(e: Emitter, m: Machine, s: Operand, u: Operand, dest: Dest, p: bool)
    requires Ready(e, m) && RoomForTwo(m) && EquAccepts(s, u) && DestOk(dest)
    modifies e.Repr, m, m.reg
    ensures Scripted(e, m, ForkScript(EquFork(m.t, m.live, s, u, p), dest))
  {
    hide Emitter.Valid, Machine.Valid, Emits, HeadRoom, EquMatched, ForkScript;
    var a, b, tried := s, u, false;
    while !EquPattern(a, b)
      invariant if tried then (a, b) == (u, s) && !EquPattern(s, u) else (a, b) == (s, u)
      decreases !tried
    {
      tried := true;
      a, b := b, a;
    }
    EmitEqu(e, m, a, b, dest, p);
  }

  /** A matched pair: load what is in memory, branch, undo in the delay slot. */
  method EmitEqu(e: Emitter, m: Machine, s: Operand, u: Operand, dest: Dest, p: bool)
    requires Ready(e, m) && RoomForTwo(m) && EquPattern(s, u) && DestOk(dest)
    modifies e.Repr, m, m.reg
    ensures Scripted(e, m, ForkScript(EquMatched(m.t, m.live, s, u, p), dest))
  {
    hide Emitter.Valid, Machine.Valid, Emits, HeadRoom, AcquireCode, ReleaseSlot, ReleaseCode, LoadRegCode, ForkScript, TempAt, LoadTemp;
    ghost var T := m.live;
    ghost var f := EquMatched(m.t, T, s, u, p);
    ForkAppend(e.script, f, dest);
    RoomOneTwo(m);
    EmitsNothing(e.script);
    if s.OpReg? && u.OpReg? {
      EmitBranch(e, m, BrEq(p, s.reg, u.reg), dest);
      Encode(e, m, NOP);
    } else if s.OpReg? && u.DAddr? {
      var r := FetchTemp(e, m, u);
      EmitBranch(e, m, BrEq(p, s.reg, r), dest);
      ReleaseOrNop(e, m);
    } else if s.OpReg? {
      Encode(e, m, Addiu(s.reg, s.reg, Int16(-(u.k as int))));
      EmitBranch(e, m, BrEq(p, s.reg, ZERO), dest);
      Encode(e, m, Addiu(s.reg, s.reg, Int16(u.k)));
    } else if u.DAddr? {
      var r := EmitDifference(e, m, s, u);
      EmitsAppend(old(e.script), DifferenceCode(m.t, T, s, u), ReleaseCode(m.t, T + 2));
      ReleaseOne(e, m);
      EmitBranch(e, m, BrEq(p, r, ZERO), dest);
      ReleaseOrNop(e, m);
    } else {
      var r := FetchTemp(e, m, s);
      EmitsAppend(old(e.script), LoadTemp(m.t, T, s), [Addiu(r, r, Int16(-(u.k as int)))]);
      Encode(e, m, Addiu(r, r, Int16(-(u.k as int))));
      EmitBranch(e, m, BrEq(p, r, ZERO), dest);
      ReleaseOrNop(e, m);
    }
  }

  function DifferenceCode(t: Target, T: nat, s: Operand, u: Operand): seq<Instr>
    requires |t.temps| > 0
  {
    var r, r2 := TempAt(t, T), TempAt(t, T + 1);
    AcquireCode(t, T) + AcquireCode(t, T + 1) + (LoadRegCode(s, r, false) + LoadRegCode(u, r2, false) + [Subu(r, r, r2)])
  }

  /** Two memory operands fetched into two temporaries and subtracted in the first. */
  method EmitDifference(e: Emitter, m: Machine, s: Operand, u: Operand) returns (r: Reg)
    requires Ready(e, m) && RoomForTwo(m) && s.DAddr? && u.DAddr?
    modifies e.Repr, m, m.reg
    ensures r == TempAt(m.t, old(m.live)) && AppendedBy(e, m, DifferenceCode(m.t, old(m.live), s, u), 2)
  {
    hide Emitter.Valid, Machine.Valid, Emits, HeadRoom, AcquireCode, LoadRegCode, TempAt;
    ghost var t, T, s0 := m.t, m.live, e.script;
    RoomOneTwo(m);
    r := m.AcquireTemp(e);
    var r2 := m.AcquireTemp(e);
    ghost var a, b, c, d := AcquireCode(t, T), AcquireCode(t, T + 1), LoadRegCode(s, r, false), LoadRegCode(u, r2, false);
    ghost var sub := [Subu(r, r, r2)];
    EmitsAppend(s0, a, b);
    EmitsAppend(s0, a + b, c);
    EmitsAppend(s0, a + b + c, d);
    EmitsAppend(s0, a + b + c + d, sub);
    assert a + b + c + d + sub == a + b + (c + d + sub);
    Move(e, m, OpReg(r), s);
    Move(e, m, OpReg(r2), u);
    Encode(e, m, Subu(r, r, r2));
  }

  method MipsBeq(e: Emitter, m: Machine, s: Operand, u: Operand, dest: Dest)
    requires Ready(e, m) && RoomForTwo(m) && !s.Imm? && EquAccepts(s, SubZero(u)) && DestOk(dest)
    modifies e.Repr, m, m.reg
    ensures Scripted(e, m, ForkScript(EquFork(m.t, m.live, s, SubZero(u), true), dest))
  {
    DoEquv(e, m, SubZero(s), SubZero(u), dest, true);
  }

  method MipsBne(e: Emitter, m: Machine, s: Operand, u: Operand, dest: Dest)
    requires Ready(e, m) && RoomForTwo(m) && !s.Imm? && EquAccepts(s, SubZero(u)) && DestOk(dest)
    modifies e.Repr, m, m.reg
    ensures Scripted(e, m, ForkScript(EquFork(m.t, m.live, s, SubZero(u), false), dest))
  {
    DoEquv(e, m, SubZero(s), SubZero(u), dest, false);
  }

  method IneqLoadTemp(e: Emitter, m: Machine, o: Operand) returns (o': Operand, loaded: bool)
    requires Ready(e, m) && (NeedsTemp(o) ==> HeadRoom(m.t, m.live, 1, m.allowSpill))
    modifies e.Repr, m, m.reg
    ensures o' == AsLoaded(m.t, old(m.live), o) && loaded == NeedsTemp(o)
    ensures AppendedBy(e, m, IneqLoad(m.t, old(m.live), o), if loaded then 1 else 0)
  {
    hide Emitter.Valid, Machine.Valid, Emits, HeadRoom, LoadTemp;
    EmitsNothing(e.script);
    if o.OpReg? || IsInvertible(o) {
      return o, false;
    }
    var r := FetchTemp(e, m, o);
    return OpReg(r), true;
  }

  /** The in-place subtraction and addition of an inequality need no temporaries. */
  lemma InPlaceNeedsNone(t: Target, T: nat, d: Reg, s: Reg, u: Operand)
    requires |t.temps| > 0 && (u.OpReg? || IsInvertible(u))
    ensures SubNeeds(t, T, OpReg(d), OpReg(s), u) == 0 && AddNeeds(t, T, OpReg(d), OpReg(s), u) == 0
  {
    hide TempAt, AcquireCode, LoadRegCode;
  }

  lemma NoneNeeded(t: Target, T: nat, T': nat, allow: bool)
    requires HeadRoom(t, T, 2, allow) && T' <= T + 2
    ensures HeadRoom(t, T', 0, allow)
  {
    var n := |t.temps|;
    if n < T' < T + 2 {
      SlotMonotone(n, T' - 1 - n, T + 1 - n);
    }
  }

  /** Load what needs loading and subtract, preferring a temporary as destination. */
  method IneqDifference(e: Emitter, m: Machine, s: Operand, u: Operand) returns (d: Operand, u': Operand, iss: bool, ist: bool)
    requires Ready(e, m) && RoomForTwo(m) && !s.Imm?
    modifies e.Repr, m, m.reg
    ensures var T := old(m.live);
            && iss == NeedsTemp(s) && ist == NeedsTemp(u)
            && u' == AsLoaded(m.t, IneqSecondAt(T, s), u) && (u'.OpReg? || IsInvertible(u'))
            && d == (if !iss && ist then u' else AsLoaded(m.t, T, s)) && d.OpReg?
            && AppendedBy(e, m, IneqPre(m.t, T, s, u), (if iss then 1 else 0) + (if ist then 1 else 0))
  {
    hide Emitter.Valid, Machine.Valid, Emits, HeadRoom, TempAt, LoadTemp, SubCode, IneqLoad;
    ghost var t, T, s0 := m.t, m.live, e.script;
    RoomOneTwo(m);
    var s';
    s', iss := IneqLoadTemp(e, m, s);
    u', ist := IneqLoadTemp(e, m, u);
    d := if iss then s' else if ist then u' else s';
    ghost var a, b, c := IneqLoad(t, T, s), IneqLoad(t, IneqSecondAt(T, s), u), SubCode(t, m.live, d, s', u');
    EmitsAppend(s0, a, b);
    EmitsAppend(s0, a + b, c);
    InPlaceNeedsNone(t, m.live, d.reg, s'.reg, u');
    NoneNeeded(t, T, m.live, m.allowSpill);
    MipsSub(e, m, d, s', u');
  }

  /** One addition puts back a register that a subtraction was made in. */
  method UndoSub(e: Emitter, m: Machine, d: Operand, u: Operand)
    requires Ready(e, m) && d.OpReg? && (u.OpReg? || IsInvertible(u)) && HeadRoom(m.t, m.live, 0, m.allowSpill)
    modifies e.Repr, m, m.reg
    ensures AddAccepts(d, u) && |AddCode(m.t, m.live, d, d, u)| == 1 && Appended(e, m, AddCode(m.t, m.live, d, d, u))
  {
    hide Emitter.Valid, Machine.Valid, Emits, HeadRoom, AddCode, AddNeeds;
    AddInPlace(m.t, m.live, d.reg, u);
    InPlaceNeedsNone(m.t, m.live, d.reg, d.reg, u);
    MipsAdd(e, m, d, d, u);
  }

  /** Subtract into d and branch on its sign; the slot restores what was used. */
  method MipsInequality(e: Emitter, m: Machine, s: Operand, u: Operand, dest: Dest, rel: Rel)
    requires Ready(e, m) && RoomForTwo(m) && !BothImm(s, u) && DestOk(dest)
    modifies e.Repr, m, m.reg
    ensures Scripted(e, m, ForkScript(IneqFork(m.t, m.live, s, u, rel), dest))
    decreases s.Imm?
  {
    hide Emitter.Valid, Machine.Valid, Emits, HeadRoom, ReleaseSlot, ReleaseCode, ForkScript, TempAt, LoadTemp, SubCode, AddCode, IneqLoad, IneqPre;
    if s.Imm? {
      MipsInequality(e, m, u, s, dest, Anti(rel));
      return;
    }
    ghost var t, T, s0 := m.t, m.live, e.script;
    ghost var f := IneqMatched(t, T, s, u, rel);
    ForkAppend(s0, f, dest);
    RoomOneTwo(m);
    NoneNeeded(t, T, T, m.allowSpill);
    var d, u', iss, ist := IneqDifference(e, m, s, u);
    if iss && ist {
      EmitsAppend(s0, IneqPre(t, T, s, u), ReleaseCode(t, T + 2));
      ReleaseOne(e, m);
    }
    EmitBranch(e, m, BrRel(rel, d.reg), dest);
    if iss || ist {
      ReleaseOrNop(e, m);
    } else {
      UndoSub(e, m, d, u');
      assert AddCode(t, T, d, d, u') == [f.slot];
    }
  }

  method MipsBlt(e: Emitter, m: Machine, s: Operand, u: Operand, dest: Dest)
    requires Ready(e, m) && RoomForTwo(m) && !s.Imm? && DestOk(dest)
    modifies e.Repr, m, m.reg
    ensures Scripted(e, m, ForkScript(IneqFork(m.t, m.live, s, SubZero(u), LT), dest))
  {
    MipsInequality(e, m, SubZero(s), SubZero(u), dest, LT);
  }

  method MipsBgt(e: Emitter, m: Machine, s: Operand, u: Operand, dest: Dest)
    requires Ready(e, m) && RoomForTwo(m) && !s.Imm? && DestOk(dest)
    modifies e.Repr, m, m.reg
    ensures Scripted(e, m, ForkScript(IneqFork(m.t, m.live, s, SubZero(u), GT), dest))
  {
    MipsInequality(e, m, SubZero(s), SubZero(u), dest, GT);
  }

  method MipsBle(e: Emitter, m: Machine, s: Operand, u: Operand, dest: Dest)
    requires Ready(e, m) && RoomForTwo(m) && !s.Imm? && DestOk(dest)
    modifies e.Repr, m, m.reg
    ensures Scripted(e, m, ForkScript(IneqFork(m.t, m.live, s, SubZero(u), LE), dest))
  {
    MipsInequality(e, m, SubZero(s), SubZero(u), dest, LE);
  }

  method MipsBge(e: Emitter, m: Machine, s: Operand, u: Operand, dest: Dest)
    requires Ready(e, m) && RoomForTwo(m) && !s.Imm? && DestOk(dest)
    modifies e.Repr, m, m.reg
    ensures Scripted(e, m, ForkScript(IneqFork(m.t, m.live, s, SubZero(u), GE), dest))
  {
    MipsInequality(e, m, SubZero(s), SubZero(u), dest, GE);
  }
}
