/** The emitters of saves and restores, and the shared routines with their recorded word size. */
module SaveRoutines {
  import opened Words
  import opened Mips
  import opened Script
  import opened Emitter32
  import opened Target
  import opened Moves
  import opened Machines
  import opened Saves
  import Frame

  class JFunc {
    var addr: nat
    var data: nat

    constructor (addr: nat)
      ensures this.addr == addr && data == 0
    {
      this.addr, data := addr, 0;
    }
  }

  const RET_CODE: seq<Instr> := [Jr(RA), NOP]

  method VregToPhysicalReg(m: Machine, v: nat) returns (r: Reg)
    requires m.Valid() && v < |m.t.spare|
    ensures r == m.t.spare[v]
  {
    assert m.reg[m.nrTempRegs + v] == m.t.spare[v];
    r := m.reg[m.nrTempRegs + v];
  }

  method SpareRegs(m: Machine) returns (n: nat)
    requires m.Valid()
    ensures n == |m.t.spare|
  {
    n := m.nrReg - m.nrTempRegs;
  }

  /** The move of one register slot to or from its home, if it is one of those asked for. */
  method EmitSlot(e: Emitter, m: Machine, isStore: bool, tempsOnly: bool, p: nat) returns (spilled: nat)
    requires Ready(e, m)
    modifies e.Repr, m, m.reg
    ensures Appended(e, m, SlotCode(m.t, isStore, tempsOnly, p)) && spilled == |SlotCode(m.t, isStore, tempsOnly, p)|
  {
    hide Emitter.Valid, Emits;
    EmitsNothing(e.script);
    spilled := 0;
    var n := SpareRegs(m);
    if p < n {
      var r := VregToPhysicalReg(m, p);
      if !tempsOnly || IsMipsTemp(r) {
        var home := TargetDAddr(m.fp, Frame.HomeOffset(p));
        if isStore {
          Move(e, m, home, OpReg(r));
        } else {
          Move(e, m, OpReg(r), home);
        }
        spilled := 1;
      }
    }
  }

  lemma ExtraStep(t: Target, isStore: bool, tempsOnly: bool, off: nat, i: nat, s: seq<Ev>)
    ensures off < i ==> (
              var a, b, c := SlotCode(t, isStore, tempsOnly, 2 * (i - 1)), SlotCode(t, isStore, tempsOnly, 2 * (i - 1) + 1), Extra(t, isStore, tempsOnly, off, i - 1);
              && s + Emits(a) + Emits(b) + Emits(c) == s + Emits(Extra(t, isStore, tempsOnly, off, i))
              && |Extra(t, isStore, tempsOnly, off, i)| == |a| + |b| + |c|)
    ensures off == i ==> s + Emits(Extra(t, isStore, tempsOnly, off, i)) == s && |Extra(t, isStore, tempsOnly, off, i)| == 0
  {
    if off < i {
      var a, b, c := SlotCode(t, isStore, tempsOnly, 2 * (i - 1)), SlotCode(t, isStore, tempsOnly, 2 * (i - 1) + 1), Extra(t, isStore, tempsOnly, off, i - 1);
      EmitsAppend(s, a, b);
      EmitsAppend(s, a + b, c);
    }
  }

  /** x_frame: locals off up to off + n, from the last to the first; counts the moves. */
  method EmitXFrame(e: Emitter, m: Machine, isStore: bool, tempsOnly: bool, off: nat, n: nat) returns (spill: nat)
    requires Ready(e, m)
    modifies e.Repr, m, m.reg
    ensures Appended(e, m, Extra(m.t, isStore, tempsOnly, off, off + n))
    ensures spill == |Extra(m.t, isStore, tempsOnly, off, off + n)|
  {
    hide Emitter.Valid, Machine.Valid, Emits, Extra, SlotCode;
    ghost var t, s0, all := m.t, e.script, Extra(m.t, isStore, tempsOnly, off, off + n);
    spill := 0;
    var i := off + n;
    while i > off
      invariant off <= i <= off + n
      invariant Ready(e, m) && fresh(e.Repr - old(e.Repr)) && e.jt == old(e.jt)
      invariant m.live == old(m.live) && m.allowSpill == old(m.allowSpill)
      invariant e.script + Emits(Extra(t, isStore, tempsOnly, off, i)) == s0 + Emits(all)
      invariant spill + |Extra(t, isStore, tempsOnly, off, i)| == |all|
    {
      ExtraStep(t, isStore, tempsOnly, off, i, e.script);
      var a := EmitSlot(e, m, isStore, tempsOnly, 2 * (i - 1));
      var b := EmitSlot(e, m, isStore, tempsOnly, 2 * (i - 1) + 1);
      spill := spill + a + b;
      i := i - 1;
    }
    ExtraStep(t, isStore, tempsOnly, off, off, e.script);
  }

  lemma CodeGrows(s: seq<Ev>, ws: seq<Instr>)
    ensures |Code(s + Emits(ws))| == |Code(s)| + |ws|
  {
    CodeConcat(s, Emits(ws));
    CodeEmits(ws);
  }

  /** For any count past the last register, the routine is the shared one. */
  lemma SharedIs(t: Target, isStore: bool, tempsOnly: bool, n: nat)
    requires n >= MaxLiveLocals(t)
    ensures Extra(t, isStore, tempsOnly, 0, n) == Shared(t, isStore, tempsOnly)
  {
    hide XFrame, Extra;
    var k := MaxLiveLocals(t);
    NoLocals(t, isStore, tempsOnly);
    XFrameTail(t, isStore, tempsOnly, 0, n);
    XFrameTail(t, isStore, tempsOnly, k, n);
    ExtraNone(t, isStore, tempsOnly, k, n);
    assert Extra(t, isStore, tempsOnly, 0, n) + [] == Extra(t, isStore, tempsOnly, 0, n);
    assert [] + XFrame(t, isStore, tempsOnly, k) == XFrame(t, isStore, tempsOnly, k);
  }

  /** The size recorded for one operation is the words emitted over the operations. */
  method InitShared(jf: JFunc, e: Emitter, m: Machine, isStore: bool, tempsOnly: bool, n: nat)
    requires Ready(e, m) && n >= MaxLiveLocals(m.t) && Shared(m.t, isStore, tempsOnly) != []
    requires jf !in e.Repr && (jf as object) != m && (jf as object) != m.reg
    modifies e.Repr, m, m.reg, jf
    ensures Appended(e, m, Shared(m.t, isStore, tempsOnly) + RET_CODE) && jf.data == 1 && jf.addr == old(jf.addr)
  {
    hide Machine.Valid, Emits, Shared, Extra, Code, Labels, PendingOf, JumpTable, MaxLine, Doubled, MaxLiveLocals;
    ghost var ws := Shared(m.t, isStore, tempsOnly);
    SharedIs(m.t, isStore, tempsOnly, n);
    CodeGrows(e.script, ws);
    EmitsAppend(e.script, ws, [Jr(RA)]);
    EmitsAppend(e.script, ws + [Jr(RA)], [NOP]);
    assert ws + [Jr(RA)] + [NOP] == ws + RET_CODE;
    var start := e.Ec();
    var spill := EmitXFrame(e, m, isStore, tempsOnly, 0, n);
    var end := e.Ec();
    var data := (end - start) / spill;
    assert data == 1;
    Encode(e, m, Jr(RA));
    Encode(e, m, NOP);
    jf.data := data;
  }

  /** jinit_x_access: every register slot. */
  method JinitXAccess(jf: JFunc, e: Emitter, m: Machine, isStore: bool)
    requires Ready(e, m) && |m.t.spare| > 0 && jf !in e.Repr && (jf as object) != m && (jf as object) != m.reg
    modifies e.Repr, m, m.reg, jf
    ensures Appended(e, m, Shared(m.t, isStore, false) + RET_CODE) && jf.data == 1 && jf.addr == old(jf.addr)
  {
    hide Emitter.Valid, Emits;
    EnterAll(m.t, isStore, 0);
    var n := SpareRegs(m);
    InitShared(jf, e, m, isStore, false, (n + 1) / 2);
  }

  /** do_spill_or_fill: caller-saved register slots, from one local past the last. */
  method DoSpillOrFill(jf: JFunc, e: Emitter, m: Machine, isSpill: bool, ghost k: nat)
    requires Ready(e, m) && TailFrom(m.t, k) && k < |m.t.spare| && jf !in e.Repr && (jf as object) != m && (jf as object) != m.reg
    modifies e.Repr, m, m.reg, jf
    ensures Appended(e, m, Shared(m.t, isSpill, true) + RET_CODE) && jf.data == 1 && jf.addr == old(jf.addr)
  {
    hide Emitter.Valid, Emits, TailFrom;
    TempsLength(m.t, isSpill, k, MaxLiveLocals(m.t));
    var n := SpareRegs(m);
    InitShared(jf, e, m, isSpill, true, (n + 1) / 2 + 1);
  }

  /** The offset at which a call for n locals enters. */
  method LocalOffset(jf: JFunc, m: Machine, n: nat) returns (off: int)
    requires m.Valid()
    ensures off == Offset(m.t, n, jf.data)
  {
    var s := SpareRegs(m);
    off := (if s > 2 * n then s - 2 * n else 0) * jf.data;
  }

  /** is_any_temps: from local n down to local 0. */
  method AnyTemps(m: Machine, n: nat) returns (b: bool)
    requires m.Valid()
    ensures b == IsAnyTemps(m.t, n)
  {
    var s := SpareRegs(m);
    var i: int := n;
    while i >= 0
      invariant -1 <= i <= n
      invariant forall k :: i < k <= n ==> !Picked(m.t, true, 2 * k) && !Picked(m.t, true, 2 * k + 1)
    {
      b := false;
      if 2 * i < s {
        var r := VregToPhysicalReg(m, 2 * i);
        b := IsMipsTemp(r);
      }
      if !b && 2 * i + 1 < s {
        var r := VregToPhysicalReg(m, 2 * i + 1);
        b := IsMipsTemp(r);
      }
      if b {
        assert Picked(m.t, true, 2 * i) || Picked(m.t, true, 2 * i + 1);
        return true;
      }
      i := i - 1;
    }
    b := false;
  }
}
