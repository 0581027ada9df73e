/** The physical machine: packed reference counts, temporaries that spill, and moves. */
module Machines {
  import opened Words
  import opened Mips
  import opened Script
  import opened Emitter32
  import opened Target
  import opened Temporaries
  import opened Moves

  function GetReg(r: nat): nat {
    r % 0x1_0000
  }

  function GetRefCount(r: nat): nat {
    (r / 0x1_0000) % 0x1_0000
  }

  function SetRefCount(r: nat, rc: nat): (p: nat)
    ensures GetReg(p) == GetReg(r) && GetRefCount(p) == rc % 0x1_0000
  {
    (rc % 0x1_0000) * 0x1_0000 + GetReg(r)
  }

  /** Distance in bytes from sp down to a spill slot. */
  function AbsStackOffset(idx: nat, rc: nat, n: nat): int {
    4 * ((rc - 1) * n + idx + rc)
  }

  /** The slot computed from register index and count is the slot of the spilled temporary. */
  lemma OffsetIsSlot(T: nat, n: nat)
    requires n > 0 && T >= n
    ensures AbsStackOffset(T % n, T / n, n) == 4 * SlotNo(n, T - n)
  {
    var q, r := T / n, T % n;
    assert T - n == (q - 1) * n + r;
    DivModUnique(T - n, n, q - 1, r);
  }

  class Machine {
    const sp: Reg
    const fp: Reg
    const ra: Reg
    const isRa: bool
    const nrReg: nat
    const nrTempRegs: nat
    var allowSpill: bool
    var maxAccess: nat
    const reg: array<nat>

    ghost const t: Target
    /** Number of live temporaries. */
    ghost var live: nat

    ghost predicate Valid()
      reads this, reg
    {
      && t.Valid() && t.sp == sp && t.fp == fp && t.ra == ra
      && nrTempRegs == |t.temps| && nrReg == |t.temps| + |t.spare| && reg.Length == nrReg
      && live / nrTempRegs < 0xffff
      && (forall i :: 0 <= i < nrTempRegs ==>
            GetReg(reg[i]) == t.temps[i] && GetRefCount(reg[i]) == Stair(live, nrTempRegs, i))
      && (forall i :: 0 <= i < |t.spare| ==> reg[nrTempRegs + i] == t.spare[i])
    }

    /** A fresh machine over a register table: temporaries first, none live. */
    constructor (target: Target, isRa: bool)
      requires target.Valid()
      ensures Valid() && fresh(reg) && t == target && live == 0 && !allowSpill
      ensures this.isRa == isRa
    {
      sp, fp, ra := target.sp, target.fp, target.ra;
      this.isRa := isRa;
      nrTempRegs, nrReg := |target.temps|, |target.temps| + |target.spare|;
      allowSpill, maxAccess := false, 0;
      var table := target.temps + target.spare;
      reg := new nat[|table|](i requires 0 <= i < |table| => table[i]);
      t, live := target, 0;
    }

    /** Index of the register handed out next, read off the reference counts. */
    method NextIndex() returns (i: nat)
      requires Valid()
      ensures i == live % nrTempRegs
    {
      i := nrTempRegs - 1;
      while i > 0
        invariant 0 <= i < nrTempRegs
        invariant live % nrTempRegs <= i
      {
        if GetRefCount(reg[i]) < GetRefCount(reg[i - 1]) {
          break;
        }
        i := i - 1;
      }
    }

    /** Index of the register acquired last. */
    method LastIndex() returns (i: nat)
      requires Valid()
      ensures if live == 0 then i == nrTempRegs - 1 else i == (live - 1) % nrTempRegs && live / nrTempRegs + (if i < live % nrTempRegs then 1 else 0) == (live - 1) / nrTempRegs + 1
    {
      i := 0;
      while i < nrTempRegs - 1
        invariant 0 <= i < nrTempRegs
        invariant i == 0 || live % nrTempRegs == 0 || i < live % nrTempRegs
      {
        if GetRefCount(reg[i]) > GetRefCount(reg[i + 1]) {
          break;
        }
        i := i + 1;
      }
      if live > 0 {
        StairNext(live - 1, nrTempRegs);
        LastStep(live, nrTempRegs);
      }
    }

    static lemma LastStep(T: nat, n: nat)
      requires n > 0 && T > 0
      ensures (T - 1) % n == (if T % n == 0 then n - 1 else T % n - 1)
      ensures (T - 1) / n == (if T % n == 0 then T / n - 1 else T / n)
    {
      var q, r := T / n, T % n;
      if r == 0 {
        assert T - 1 == (q - 1) * n + (n - 1);
        DivModUnique(T - 1, n, q - 1, n - 1);
      } else {
        DivModUnique(T - 1, n, q, r - 1);
      }
    }

    /** The number of live temporaries, recovered from the reference counts alone. */
    method TempsAccessed() returns (n: int)
      requires Valid()
      ensures n == live
    {
      var i := LastIndex();
      n := (GetRefCount(reg[i]) - 1) * nrTempRegs + i + 1;
      if live > 0 {
        var m := nrTempRegs;
        assert (live - 1) == ((live - 1) / m) * m + (live - 1) % m;
      } else {
        assert (0 - 1) * nrTempRegs + nrTempRegs == 0;
      }
    }

    method DisableSpill() returns (prior: bool)
      modifies this`allowSpill
      ensures prior == old(allowSpill) && !allowSpill
    {
      prior := allowSpill;
      allowSpill := false;
    }

    method RestoreSpill(prior: bool)
      modifies this`allowSpill
      ensures allowSpill == prior
    {
      allowSpill := prior;
    }

    method EnableSpill()
      modifies this`allowSpill
      ensures allowSpill
    {
      allowSpill := true;
    }

    /** Store a new count for the register at the top step of the staircase. */
    method SetCount(i: nat, rc: nat, ghost T: nat)
      requires Valid() && i < nrTempRegs && rc < 0x1_0000 && T / nrTempRegs < 0xffff
      requires forall k :: 0 <= k < nrTempRegs ==>
                 Stair(T, nrTempRegs, k) == if k == i then rc else Stair(live, nrTempRegs, k)
      modifies reg, this`live
      ensures Valid() && live == T
    {
      reg[i] := SetRefCount(reg[i], rc);
      live := T;
    }

    /** Record the greatest number of temporaries seen live. */
    method NoteAccess()
      requires Valid()
      modifies this`maxAccess
      ensures maxAccess == (if live > old(maxAccess) then live else old(maxAccess))
    {
      var ta := TempsAccessed();
      if ta > maxAccess {
        maxAccess := ta;
      }
    }

    /** Hand out a temporary, spilling the one its register holds if there is one. */
    method AcquireTemp(e: Emitter) returns (r: Reg)
      requires Ready(e, this) && HeadRoom(t, live, 1, allowSpill)
      modifies e.Repr, this, reg
      ensures Ready(e, this) && fresh(e.Repr - old(e.Repr)) && e.jt == old(e.jt)
      ensures e.script == old(e.script) + Emits(AcquireCode(t, old(live)))
      ensures r == TempAt(t, old(live)) && live == old(live) + 1 && allowSpill == old(allowSpill)
      ensures maxAccess == (if live > old(maxAccess) then live else old(maxAccess))
      decreases 1
    {
      hide Emitter.Valid, Emits, SlotNo;
      var i := NextIndex();
      var rc := GetRefCount(reg[i]);
      r := GetReg(reg[i]);
      CountsFit(t, live);
      NextCounts();
      if rc > 0 {
        OffsetIsSlot(live, nrTempRegs);
        var prior := DisableSpill();
        Move(e, this, TargetDAddr(sp, -AbsStackOffset(i, rc, nrTempRegs)), OpReg(r));
        RestoreSpill(prior);
      } else {
        EmitsNothing(e.script);
      }
      hide Machine.Valid;
      SetCount(i, rc + 1, live + 1);
      NoteAccess();
    }

    lemma NextCounts()
      requires Valid() && HeadRoom(t, live, 1, true)
      ensures var i := live % nrTempRegs; var rc := GetRefCount(reg[i]);
              && GetReg(reg[i]) == TempAt(t, live) && rc == live / nrTempRegs && rc + 1 < 0x1_0000
              && (rc > 0 <==> live >= nrTempRegs)
              && (live + 1) / nrTempRegs < 0xffff
              && forall k :: 0 <= k < nrTempRegs ==>
                   Stair(live + 1, nrTempRegs, k) == if k == i then rc + 1 else Stair(live, nrTempRegs, k)
    {
      CountsFit(t, live);
      assert Stair(live, nrTempRegs, live % nrTempRegs) == live / nrTempRegs;
      hide Stair;
      StairNext(live, nrTempRegs);
    }

    /** Give the newest temporary back, reloading the one it displaced if there is one. */
    method ReleaseTemp(e: Emitter) returns (reloaded: bool)
      requires Ready(e, this) && live > 0 && HeadRoom(t, live - 1, 1, true)
      modifies e.Repr, this, reg
      ensures Ready(e, this) && fresh(e.Repr - old(e.Repr)) && e.jt == old(e.jt)
      ensures e.script == old(e.script) + Emits(ReleaseCode(t, old(live)))
      ensures live == old(live) - 1 && allowSpill == old(allowSpill) && maxAccess == old(maxAccess)
      ensures reloaded <==> old(live) > nrTempRegs
      decreases 1
    {
      hide Emitter.Valid, Emits, SlotNo;
      var i := LastIndex();
      LastCounts();
      var r: Reg := GetReg(reg[i]);
      var rc := GetRefCount(reg[i]) - 1;
      if rc > 0 {
        OffsetIsSlot(live - 1, nrTempRegs);
        var prior := DisableSpill();
        Move(e, this, OpReg(r), TargetDAddr(sp, -AbsStackOffset(i, rc, nrTempRegs)));
        RestoreSpill(prior);
      } else {
        EmitsNothing(e.script);
      }
      hide Machine.Valid;
      SetCount(i, rc, live - 1);
      reloaded := rc > 0;
    }

    lemma LastCounts()
      requires Valid() && live > 0 && HeadRoom(t, live - 1, 1, true)
      ensures var i := (live - 1) % nrTempRegs; var rc := GetRefCount(reg[i]) - 1;
              && GetReg(reg[i]) == TempAt(t, live - 1) && rc == (live - 1) / nrTempRegs && rc < 0x1_0000
              && (rc > 0 <==> live > nrTempRegs)
              && (live - 1) / nrTempRegs < 0xffff
              && forall k :: 0 <= k < nrTempRegs ==>
                   Stair(live - 1, nrTempRegs, k) == if k == i then rc else Stair(live, nrTempRegs, k)
    {
      CountsFit(t, live - 1);
      assert Stair(live - 1, nrTempRegs, (live - 1) % nrTempRegs) == (live - 1) / nrTempRegs;
      hide Stair;
      StairNext(live - 1, nrTempRegs);
    }
  }

  /** The emitter and the machine are consistent and separate. */
  ghost predicate Ready(e: Emitter, m: Machine)
    reads e, e.Repr, m, m.reg
  {
    e.Valid() && m.Valid() && |m.t.temps| > 0 && m !in e.Repr && m.reg !in e.Repr
  }

  /** k more temporaries can be acquired over T: in registers, or spilling if that is allowed. */
  predicate HeadRoom(t: Target, T: nat, k: nat, allowSpill: bool) {
    && |t.temps| > 0
    && (T + k > |t.temps| ==> allowSpill && 4 * SlotNo(|t.temps|, T + k - 1 - |t.temps|) <= 0x8000)
  }

  lemma CountsFit(t: Target, T: nat)
    requires |t.temps| > 0 && HeadRoom(t, T, 1, true)
    ensures (T + 1) / |t.temps| < 0xffff && T / |t.temps| < 0xffff
    ensures T / |t.temps| == 0 <==> T < |t.temps|
  {
    var n := |t.temps|;
    if T >= n {
      var q, r := (T - n) / n, (T - n) % n;
      assert T == (q + 1) * n + r;
      DivModUnique(T, n, q + 1, r);
      StairNext(T, n);
      if r + 1 < n {
        DivModUnique(T + 1, n, q + 1, r + 1);
      } else {
        assert T + 1 == (q + 2) * n;
        DivModUnique(T + 1, n, q + 2, 0);
      }
    } else {
      SmallMod(T, n);
      if T + 1 < n {
        SmallMod(T + 1, n);
      }
    }
  }

  /** The common outcome of emitting: words appended, allocator as it was. */
  twostate predicate Appended(e: Emitter, m: Machine, ws: seq<Instr>)
    reads e, e.Repr, m, m.reg
  {
    && Ready(e, m) && fresh(e.Repr - old(e.Repr)) && e.jt == old(e.jt)
    && m.live == old(m.live) && m.allowSpill == old(m.allowSpill)
    && e.script == old(e.script) + Emits(ws)
  }

  /** As Appended, with labels and branch marks among the words. */
  twostate predicate Scripted(e: Emitter, m: Machine, evs: seq<Ev>)
    reads e, e.Repr, m, m.reg
  {
    && Ready(e, m) && fresh(e.Repr - old(e.Repr)) && e.jt == old(e.jt)
    && m.live == old(m.live) && m.allowSpill == old(m.allowSpill)
    && e.script == old(e.script) + evs
  }

  /** As Appended, with the number of live temporaries moved by delta. */
  twostate predicate AppendedBy(e: Emitter, m: Machine, ws: seq<Instr>, delta: int)
    reads e, e.Repr, m, m.reg
  {
    && Ready(e, m) && fresh(e.Repr - old(e.Repr)) && e.jt == old(e.jt)
    && m.live == old(m.live) + delta && m.allowSpill == old(m.allowSpill)
    && e.script == old(e.script) + Emits(ws)
  }

  lemma EmitsAppend(s: seq<Ev>, a: seq<Instr>, b: seq<Instr>)
    ensures s + Emits(a) + Emits(b) == s + Emits(a + b)
  {
    EmitsConcat(a, b);
    assert s + Emits(a) + Emits(b) == s + (Emits(a) + Emits(b));
  }

  lemma EmitsNothing(s: seq<Ev>)
    ensures s + Emits([]) == s
  {
  }

  lemma EmitsOne(i: Instr)
    ensures Emits([i]) == [Emit(i)]
  {
  }

  method Encode(e: Emitter, m: Machine, i: Instr)
    requires Ready(e, m)
    modifies e.Repr
    ensures Appended(e, m, [i])
    decreases 0, 0
  {
    e.EncodeOp(i);
  }

  /** A run of words, one at a time. */
  method EmitWords(e: Emitter, m: Machine, ws: seq<Instr>)
    requires Ready(e, m)
    modifies e.Repr
    ensures Appended(e, m, ws)
    decreases 0, 1
  {
    hide Emitter.Valid, Machine.Valid, Emits;
    EmitsNothing(e.script);
    var i := 0;
    while i < |ws|
      invariant 0 <= i <= |ws|
      invariant Appended(e, m, ws[..i])
    {
      EmitsAppend(old(e.script), ws[..i], [ws[i]]);
      assert ws[..i + 1] == ws[..i] + [ws[i]];
      Encode(e, m, ws[i]);
      i := i + 1;
    }
    assert ws[..i] == ws;
  }

  method LoadBigIm(e: Emitter, m: Machine, reg: Reg, k: Word)
    requires Ready(e, m)
    modifies e.Repr
    ensures Appended(e, m, [Lui(reg, (k / 0x1_0000) % 0x1_0000), Ori(reg, reg, k % 0x1_0000)])
    decreases 0, 1
  {
    Encode(e, m, Lui(reg, (k / 0x1_0000) % 0x1_0000));
    Encode(e, m, Ori(reg, reg, k % 0x1_0000));
    EmitsAppend(old(e.script), [Lui(reg, (k / 0x1_0000) % 0x1_0000)], [Ori(reg, reg, k % 0x1_0000)]);
  }

  method LoadIm(e: Emitter, m: Machine, reg: Reg, k: Word)
    requires Ready(e, m)
    modifies e.Repr
    ensures Appended(e, m, LoadImCode(reg, k))
    decreases 0, 2
  {
    if -0x8000 <= k <= 0xffff {
      if k >= 0 {
        Encode(e, m, Ori(reg, ZERO, k));
      } else {
        Encode(e, m, Addiu(reg, ZERO, Int16(k)));
      }
    } else {
      LoadBigIm(e, m, reg, k);
    }
  }

  /** Bring an operand into a register; the caller's operand becomes that register. */
  method LoadReg(e: Emitter, m: Machine, d: Operand, tempReg: Reg, force: bool) returns (d': Operand)
    requires Ready(e, m)
    modifies e.Repr
    ensures Appended(e, m, LoadRegCode(d, tempReg, force))
    ensures d' == if d.OpReg? && !force then d else OpReg(tempReg)
    decreases 0, 3
  {
    match d {
      case Imm(k) => LoadIm(e, m, tempReg, k);
      case DAddr(base, offset) => Encode(e, m, Lw(tempReg, base, offset));
      case OpReg(r) =>
        if !force {
          assert e.script == e.script + Emits([]);
          return d;
        }
        Encode(e, m, Or(tempReg, r, ZERO));
    }
    d' := OpReg(tempReg);
  }

  method Move(e: Emitter, m: Machine, d: Operand, s: Operand)
    requires Ready(e, m) && !d.Imm?
    requires d.DAddr? && !s.OpReg? ==> HeadRoom(m.t, m.live, 1, m.allowSpill)
    modifies e.Repr, m, m.reg
    ensures Appended(e, m, MoveCode(m.t, m.live, d, s))
    ensures d.OpReg? || s.OpReg? ==> m.maxAccess == old(m.maxAccess)
    decreases if d.DAddr? && !s.OpReg? then 2 else 0, 4
  {
    hide Emitter.Valid, Emits, SlotNo, AcquireCode, ReleaseCode, LoadRegCode;
    var reg: Reg, istemp := ZERO, false;
    ghost var a: seq<Instr> := [];
    EmitsNothing(e.script);
    if d.OpReg? {
      reg := d.reg;
    } else if s.OpReg? {
      reg := s.reg;
    } else {
      a := AcquireCode(m.t, m.live);
      reg := m.AcquireTemp(e);
      istemp := true;
    }
    hide Machine.Valid;
    ghost var b := LoadRegCode(s, reg, d.OpReg? && s.OpReg?);
    var s' := LoadReg(e, m, s, reg, d.OpReg? && s.OpReg?);
    EmitsAppend(old(e.script), a, b);
    if d.DAddr? {
      ghost var c := [Sw(reg, d.base, d.offset)];
      Encode(e, m, Sw(reg, d.base, d.offset));
      EmitsAppend(old(e.script), a + b, c);
      if istemp {
        EmitsAppend(old(e.script), a + b + c, ReleaseCode(m.t, m.live));
        var _ := m.ReleaseTemp(e);
      } else {
        assert b == [] by { LoadRegNone(s, reg); }
        assert a + b + c == c;
      }
    } else {
      assert a + b == b;
    }
  }
}
