/** The arithmetic emitters, each proved to append exactly the code of its specification. */
module Arithmetic {
  import opened Words
  import opened Mips
  import opened Script
  import opened Emitter32
  import opened Target
  import opened Moves
  import opened ArithCode
  import opened ArithOps
  import opened Machines

  lemma FewerRoom(t: Target, T: nat, k: nat, k': nat, allow: bool)
    requires HeadRoom(t, T, k, allow) && k' <= k
    ensures HeadRoom(t, T, k', allow)
    ensures 0 < k' ==> HeadRoom(t, T + k' - 1, 1, allow) && HeadRoom(t, T + k' - 1, 1, true)
  {
    var n := |t.temps|;
    if n < T + k' < T + k {
      SlotMonotone(n, T + k' - 1 - n, T + k - 1 - n);
    }
  }

  method LandOperand(e: Emitter, m: Machine, o: Operand, other: Operand, d: Reg, allow: bool) returns (o': Operand, k: nat)
    requires Ready(e, m) && (!InPlace(o, allow) && other == OpReg(d) ==> HeadRoom(m.t, m.live, 1, m.allowSpill))
    modifies e.Repr, m, m.reg
    ensures var l := Land(m.t, old(m.live), o, other, d, allow);
            o' == l.o && k == l.hi - old(m.live) && AppendedBy(e, m, l.code, k)
  {
    hide Emitter.Valid, Emits, AcquireCode, LoadRegCode, HeadRoom;
    EmitsNothing(e.script);
    o', k := o, 0;
    if !InPlace(o, allow) {
      if other == OpReg(d) {
        var r := m.AcquireTemp(e);
        o', k := OpReg(r), 1;
        EmitsAppend(old(e.script), AcquireCode(m.t, old(m.live)), LoadRegCode(o, r, false));
      } else {
        o' := OpReg(d);
      }
      Move(e, m, o', o);
    }
  }

  method AcquireReg(e: Emitter, m: Machine, d: Operand, s: Operand, u: Operand, allow: bool)
    returns (d': Reg, s': Operand, u': Operand, n: nat)
    requires Ready(e, m) && !d.Imm? && !s.Imm?
    requires HeadRoom(m.t, m.live, AcquireRegs(m.t, m.live, d, s, u, allow).n, m.allowSpill)
    modifies e.Repr, m, m.reg
    ensures var a := AcquireRegs(m.t, old(m.live), d, s, u, allow);
            d' == a.d && s' == a.s && u' == a.u && n == a.n && AppendedBy(e, m, a.code, n)
  {
    hide Emitter.Valid, Machine.Valid, Emits, AcquireCode, LoadRegCode, HeadRoom, AcquireRegs;
    ghost var t, T := m.t, m.live;
    ghost var a := AcquireRegs(t, T, d, s, u, allow);
    AcquireShape(t, T, d, s, u, allow);
    RoomForEach(t, T, d, s, u, allow, m.allowSpill);
    ghost var ls := Land(t, StartHi(T, d), s, u, StartReg(t, T, d), allow);
    ghost var lu := Land(t, ls.hi, u, ls.o, StartReg(t, T, d), allow);
    EmitsNothing(e.script);
    n := 0;
    if d.OpReg? {
      d' := d.reg;
    } else {
      d' := m.AcquireTemp(e);
      n := 1;
    }
    assert e.script == old(e.script) + Emits(StartCode(t, T, d));
    EmitsAppend(old(e.script), StartCode(t, T, d), ls.code);
    EmitsAppend(old(e.script), StartCode(t, T, d) + ls.code, lu.code);
    var k;
    s', k := LandOperand(e, m, s, u, d', allow);
    n := n + k;
    u', k := LandOperand(e, m, u, s', d', allow);
    n := n + k;
  }

  lemma RoomForEach(t: Target, T: nat, d: Operand, s: Operand, u: Operand, allow: bool, spill: bool)
    requires |t.temps| > 0 && HeadRoom(t, T, AcquireRegs(t, T, d, s, u, allow).n, spill)
    ensures !d.OpReg? ==> HeadRoom(t, T, 1, spill)
    ensures var ls := Land(t, StartHi(T, d), s, u, StartReg(t, T, d), allow);
            && (ls.hi > StartHi(T, d) ==> HeadRoom(t, StartHi(T, d), 1, spill))
            && (Land(t, ls.hi, u, ls.o, StartReg(t, T, d), allow).hi > ls.hi ==> HeadRoom(t, ls.hi, 1, spill))
  {
    hide SlotNo;
    AcquireShape(t, T, d, s, u, allow);
    var a := AcquireRegs(t, T, d, s, u, allow);
    if a.n >= 1 {
      FewerRoom(t, T, a.n, 1, spill);
    }
    if a.n >= 2 {
      FewerRoom(t, T, a.n, 2, spill);
    }
  }

  method ReleaseTempN(e: Emitter, m: Machine, n: nat)
    requires Ready(e, m) && n <= m.live && HeadRoom(m.t, m.live - n, n, true)
    modifies e.Repr, m, m.reg
    ensures AppendedBy(e, m, ReleaseN(m.t, old(m.live) - n, n), 0 - n)
  {
    hide Emitter.Valid, Emits, ReleaseCode, HeadRoom, ReleaseN;
    ghost var T := m.live - n;
    var i := 0;
    ReleaseRest(m.t, T, n, e.script);
    while i < n
      invariant 0 <= i <= n
      invariant Ready(e, m) && fresh(e.Repr - old(e.Repr)) && e.jt == old(e.jt)
      invariant m.live == T + n - i && m.allowSpill == old(m.allowSpill)
      invariant e.script + Emits(ReleaseN(m.t, T, n - i)) == old(e.script) + Emits(ReleaseN(m.t, T, n))
    {
      FewerRoom(m.t, T, n, n - i, true);
      ReleaseRest(m.t, T, n - i, e.script);
      var _ := m.ReleaseTemp(e);
      i := i + 1;
    }
    ReleaseRest(m.t, T, 0, e.script);
  }

  lemma ReleaseRest(t: Target, T: nat, n: nat, s: seq<Ev>)
    requires |t.temps| > 0
    ensures n == 0 ==> s + Emits(ReleaseN(t, T, n)) == s
    ensures n > 0 ==> s + Emits(ReleaseCode(t, T + n)) + Emits(ReleaseN(t, T, n - 1)) == s + Emits(ReleaseN(t, T, n))
  {
    if n > 0 {
      EmitsAppend(s, ReleaseCode(t, T + n), ReleaseN(t, T, n - 1));
    }
  }

  /** Store the result if its home is memory, then give the temporaries back. */
  method ReleaseReg(e: Emitter, m: Machine, d: Reg, origin: Operand, n: nat)
    requires Ready(e, m) && n <= m.live && HeadRoom(m.t, m.live - n, n, true)
    modifies e.Repr, m, m.reg
    ensures AppendedBy(e, m, StoreBack(origin, d) + ReleaseN(m.t, old(m.live) - n, n), 0 - n)
  {
    hide Emitter.Valid, Machine.Valid, Emits, ReleaseCode, HeadRoom, ReleaseN;
    EmitsNothing(e.script);
    if origin.DAddr? {
      Move(e, m, origin, OpReg(d));
    }
    EmitsAppend(old(e.script), StoreBack(origin, d), ReleaseN(m.t, m.live - n, n));
    ReleaseTempN(e, m, n);
  }

  /** Acquire, operate, release: the shape all arithmetic shares. */
  method DoBop(e: Emitter, m: Machine, d: Operand, s: Operand, u: Operand, allow: bool, c: Core)
    requires Ready(e, m) && !d.Imm? && CoreAccepts(c, s, u, allow)
    requires HeadRoom(m.t, m.live, AcquireRegs(m.t, m.live, d, s, u, allow).n, m.allowSpill)
    modifies e.Repr, m, m.reg
    ensures Appended(e, m, BopCode(m.t, m.live, d, s, u, allow, c))
  {
    hide Emitter.Valid, Machine.Valid, Emits, HeadRoom, AcquireRegs, CoreCode, ReleaseN, StoreBack;
    ghost var a := AcquireRegs(m.t, m.live, d, s, u, allow);
    CoreTakes(m.t, m.live, d, s, u, allow, c);
    AcquireShape(m.t, m.live, d, s, u, allow);
    SpillIrrelevant(m.t, m.live, a.n, m.allowSpill);
    var d', s', u', n := AcquireReg(e, m, d, s, u, allow);
    ghost var core := CoreCode(c, d', s'.reg, u');
    EmitsAppend(old(e.script), a.code, core);
    EmitCore(e, m, c, d', s'.reg, u');
    ghost var fin := StoreBack(d, d') + ReleaseN(m.t, m.live - n, n);
    EmitsAppend(old(e.script), a.code + core, fin);
    ReleaseReg(e, m, d', d, n);
    assert a.code + core + fin == a.code + core + StoreBack(d, d') + ReleaseN(m.t, m.live, n);
  }

  lemma SpillIrrelevant(t: Target, T: nat, k: nat, allow: bool)
    requires HeadRoom(t, T, k, allow)
    ensures HeadRoom(t, T, k, true)
  {
  }

  method EmitCore(e: Emitter, m: Machine, c: Core, d: Reg, s: Reg, u: Operand)
    requires Ready(e, m) && (u.OpReg? || (TakesImmed(c) && IsAddImmed(u)))
    modifies e.Repr
    ensures Appended(e, m, CoreCode(c, d, s, u))
  {
    hide Emitter.Valid, Machine.Valid, Emits, Code;
    ghost var ws := CoreCode(c, d, s, u);
    if |ws| == 2 {
      EmitsAppend(e.script, [ws[0]], [ws[1]]);
      assert [ws[0]] + [ws[1]] == ws;
    }
    match c {
      case CAdd(negate) =>
        Encode(e, m, if u.Imm? then Addiu(d, s, Int16(u.k)) else Addu(d, s, u.reg));
        if negate {
          Encode(e, m, Subu(d, ZERO, d));
        }
      case CSub => Encode(e, m, Subu(d, s, u.reg));
      case CMul => Encode(e, m, Mul(d, s, u.reg));
      case COr => Encode(e, m, Or(d, s, u.reg));
      case CDiv(isSigned, isLow) =>
        Encode(e, m, if isSigned then Div(s, u.reg) else Divu(s, u.reg));
        Encode(e, m, if isLow then Mflo(d) else Mfhi(d));
      case CSll(sk) => Encode(e, m, Sll(d, s, sk));
      case CSrl(sk) => Encode(e, m, Srl(d, s, sk));
      case CSra(sk) => Encode(e, m, Sra(d, s, sk));
    }
  }

  /** Two temporaries are the most any operation holds. */
  ghost predicate RoomForTwo(m: Machine)
    reads m
  {
    HeadRoom(m.t, m.live, 2, m.allowSpill)
  }

  lemma RoomForBop(m: Machine, d: Operand, s: Operand, u: Operand, allow: bool)
    requires |m.t.temps| > 0 && RoomForTwo(m)
    ensures HeadRoom(m.t, m.live, AcquireRegs(m.t, m.live, d, s, u, allow).n, m.allowSpill)
    ensures HeadRoom(m.t, m.live, 1, m.allowSpill)
  {
    TwoTempsEnough(m.t, m.live, d, s, u, allow);
    AcquireShape(m.t, m.live, d, s, u, allow);
    FewerRoom(m.t, m.live, 2, AcquireRegs(m.t, m.live, d, s, u, allow).n, m.allowSpill);
    FewerRoom(m.t, m.live, 2, 1, m.allowSpill);
  }

  method DoAdd(e: Emitter, m: Machine, d: Operand, s: Operand, u: Operand, negate: bool)
    requires Ready(e, m) && !d.Imm? && AddAccepts(s, u)
    requires HeadRoom(m.t, m.live, AddNeeds(m.t, m.live, d, s, u), m.allowSpill)
    modifies e.Repr, m, m.reg
    ensures Appended(e, m, DoAddCode(m.t, m.live, d, s, u, negate))
  {
    hide Emitter.Valid, Machine.Valid, Emits, HeadRoom, AcquireRegs, BopCode, MoveCode;
    if s.Imm? && u.Imm? {
      Move(e, m, d, Imm(Norm(s.k + u.k)));
      return;
    }
    var s', u' := SubZero(s), SubZero(u);
    if IsAddImmed(s') {
      s', u' := u', s';
    }
    DoBop(e, m, d, s', u', true, CAdd(negate));
  }

  method MipsAdd(e: Emitter, m: Machine, d: Operand, s: Operand, u: Operand)
    requires Ready(e, m) && !d.Imm? && AddAccepts(s, u)
    requires HeadRoom(m.t, m.live, AddNeeds(m.t, m.live, d, s, u), m.allowSpill)
    modifies e.Repr, m, m.reg
    ensures Appended(e, m, AddCode(m.t, m.live, d, s, u))
  {
    DoAdd(e, m, d, s, u, false);
  }

  method MipsSub(e: Emitter, m: Machine, d: Operand, s: Operand, u: Operand)
    requires Ready(e, m) && !d.Imm? && SubAccepts(s, u)
    requires HeadRoom(m.t, m.live, SubNeeds(m.t, m.live, d, s, u), m.allowSpill)
    modifies e.Repr, m, m.reg
    ensures Appended(e, m, SubCode(m.t, m.live, d, s, u))
  {
    hide Emitter.Valid, Machine.Valid, Emits, HeadRoom, AcquireRegs, BopCode, MoveCode, DoAddCode, AddNeeds;
    if s.Imm? && u.Imm? {
      Move(e, m, d, Imm(Norm(s.k - u.k)));
      return;
    }
    var s', u' := SubZero(s), SubZero(u);
    if IsSubImmed(s') {
      DoAdd(e, m, d, u', Negated(s'), true);
    } else if IsSubImmed(u') {
      DoAdd(e, m, d, s', Negated(u'), false);
    } else {
      DoBop(e, m, d, s', u', false, CSub);
    }
  }

  method MipsMul(e: Emitter, m: Machine, d: Operand, s: Operand, u: Operand)
    requires Ready(e, m) && RoomForTwo(m) && !d.Imm? && MulAccepts(s, u)
    modifies e.Repr, m, m.reg
    ensures Appended(e, m, MulCode(m.t, m.live, d, s, u))
  {
    hide Emitter.Valid, Machine.Valid, Emits, HeadRoom, AcquireRegs, BopCode, MoveCode, IsPowerOf2, Pow2, ILog2;
    if s.Imm? && u.Imm? {
      RoomForBop(m, d, s, u, true);
      Move(e, m, d, Imm(Norm(s.k * u.k)));
      return;
    }
    var s', u' := SubZero(s), SubZero(u);
    if IsAddImmed(s') && IsPowerOf2(s'.k) {
      s', u' := u', s';
    }
    if IsAddImmed(u') && IsPowerOf2(u'.k) {
      PowerOf2(u'.k);
      var sk := Ilog2(u'.k);
      RoomForBop(m, d, s', u', true);
      DoBop(e, m, d, s', u', true, CSll(sk));
    } else {
      RoomForBop(m, d, s', u', false);
      DoBop(e, m, d, s', u', false, CMul);
    }
  }

  method MipsOr(e: Emitter, m: Machine, d: Operand, s: Operand, u: Operand)
    requires Ready(e, m) && RoomForTwo(m) && !d.Imm? && PlainAccepts(s, u)
    modifies e.Repr, m, m.reg
    ensures Appended(e, m, OrCode(m.t, m.live, d, s, u))
  {
    hide Emitter.Valid, Machine.Valid, Emits, HeadRoom, AcquireRegs, BopCode, MoveCode, BitOr;
    if s.Imm? && u.Imm? {
      RoomForBop(m, d, s, u, true);
      Move(e, m, d, Imm(Or32(s.k, u.k)));
      return;
    }
    RoomForBop(m, d, SubZero(s), SubZero(u), false);
    DoBop(e, m, d, SubZero(s), SubZero(u), false, COr);
  }

  method MipsDiv(e: Emitter, m: Machine, d: Operand, s: Operand, u: Operand, isSigned: bool)
    requires Ready(e, m) && RoomForTwo(m) && !d.Imm? && DivAccepts(s, u)
    modifies e.Repr, m, m.reg
    ensures Appended(e, m, DivCode(m.t, m.live, d, s, u, isSigned))
  {
    hide Emitter.Valid, Machine.Valid, Emits, HeadRoom, AcquireRegs, BopCode, MoveCode, IsPowerOf2, Pow2, ILog2, TruncDiv;
    if s.Imm? && u.Imm? {
      RoomForBop(m, d, s, u, true);
      Move(e, m, d, Imm(Norm(TruncDiv(s.k, u.k))));
      return;
    }
    var s' := SubZero(s);
    if IsAddImmed(u) && IsPowerOf2(u.k) {
      PowerOf2(u.k);
      var sk := Ilog2(u.k);
      RoomForBop(m, d, s', u, true);
      DoBop(e, m, d, s', u, true, if isSigned then CSra(sk) else CSrl(sk));
    } else {
      RoomForBop(m, d, s', u, false);
      DoBop(e, m, d, s', u, false, CDiv(isSigned, true));
    }
  }

  method MipsSmod(e: Emitter, m: Machine, d: Operand, s: Operand, u: Operand)
    requires Ready(e, m) && RoomForTwo(m) && !d.Imm? && DivAccepts(s, u)
    modifies e.Repr, m, m.reg
    ensures Appended(e, m, SmodCode(m.t, m.live, d, s, u))
  {
    hide Emitter.Valid, Machine.Valid, Emits, HeadRoom, AcquireRegs, BopCode, MoveCode, TruncMod;
    if s.Imm? && u.Imm? {
      RoomForBop(m, d, s, u, true);
      Move(e, m, d, Imm(Norm(TruncMod(s.k, u.k))));
      return;
    }
    RoomForBop(m, d, SubZero(s), u, false);
    DoBop(e, m, d, SubZero(s), u, false, CDiv(true, false));
  }
}
