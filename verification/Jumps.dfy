/** Where absolute jumps and returns lead, and the shared routines run from entry to return. */
module Jumps {
  import opened Words
  import opened Mips
  import opened Target
  import opened Moves
  import opened ArithCode
  import opened BranchCode
  import opened Branch
  import opened Saves
  import opened SaveRoutines

  /**
   Wherever the address is held, control reaches the word at it, and after the delay slot
   every live temporary, the memory above the spill area and all other registers are as before.
   */
  lemma JumpRuns(code: seq<Instr>, p: int, t: Target, T: nat, lo: int, target: Operand, x: Data) returns (y: Data)
    requires t.Valid() && (target.Imm? ==> target.k >= 0) && At(code, p, JumpCode(t, T, target))
    requires target.DAddr? ==> Room(t, T, T + 1, lo, x) && Usable(t, T, T + 1, lo, x, target)
    ensures Runs(code, p, x, Val(x, target) / 4, y) && Sim(t, T, lo, x, y)
    ensures !target.DAddr? ==> y == x
  {
    hide Exec, ExecSeq, Runs, LoadTemp, ReleaseSlot, Sim, Held, Room, Usable, At, TempAt;
    match target {
      case Imm(k) =>
        ExecNop(x);
        SimRefl(t, T, lo, x);
        RunJump(code, p, J(k / 4), NOP, x);
        y := x;
      case OpReg(r) =>
        ExecNop(x);
        SimRefl(t, T, lo, x);
        RunJump(code, p, Jr(r), NOP, x);
        y := x;
      case DAddr(_, _) =>
        var ws, r := LoadTemp(t, T, target), TempAt(t, T);
        var z := ExecSeq(ws, x);
        AtSplit(code, p, ws, [Jr(r), ReleaseSlot(t, T + 1)]);
        PlainTemp(t, T, target, r);
        RunPlain(code, p, ws, x);
        LoadTempHolds(t, T, lo, target, x);
        SlotRestores(t, T, lo, x, z);
        RunJump(code, p + |ws|, Jr(r), ReleaseSlot(t, T + 1), z);
        y := Exec(ReleaseSlot(t, T + 1), z);
        RunsTrans(code, p, x, p + |ws|, z, Val(x, target) / 4, y);
    }
  }

  /** A return reaches the word at the return address and changes nothing. */
  lemma ReturnRuns(code: seq<Instr>, p: int, x: Data)
    requires At(code, p, RET_CODE)
    ensures Runs(code, p, x, R(x, RA) / 4, x)
  {
    ExecNop(x);
    RunJump(code, p, Jr(RA), NOP, x);
  }

  lemma RaNotSaved(t: Target, tempsOnly: bool, n: nat)
    requires t.Valid()
    ensures !IsSavedReg(t, tempsOnly, n, t.ra)
  {
  }

  lemma RaKept(t: Target, isStore: bool, tempsOnly: bool, n: nat, x: Data)
    requires HomesOk(t, x) && t.ra == RA
    ensures R(ExecSeq(XFrame(t, isStore, tempsOnly, n), x), RA) == R(x, RA)
  {
    hide ExecSeq, XFrame;
    if isStore {
      SaveStores(t, tempsOnly, n, x);
    } else {
      LoadRestores(t, tempsOnly, n, x);
      RaNotSaved(t, tempsOnly, n);
    }
  }

  /** Entered for n locals, a shared routine does what the sequence for n locals does, and returns. */
  lemma SharedReturns(code: seq<Instr>, p: int, t: Target, isStore: bool, tempsOnly: bool, n: nat, x: Data)
    requires At(code, p, Shared(t, isStore, tempsOnly) + RET_CODE) && PickedFrom(t, tempsOnly, n)
    requires HomesOk(t, x) && t.ra == RA
    ensures Runs(code, p + Offset(t, n, 1), x, R(x, RA) / 4, ExecSeq(XFrame(t, isStore, tempsOnly, n), x))
  {
    hide ExecSeq, Exec, XFrame, Runs, At, Offset, HomesOk, PickedFrom;
    EnterShared(t, isStore, tempsOnly, n);
    var all, k := Shared(t, isStore, tempsOnly), Offset(t, n, 1);
    var ws := XFrame(t, isStore, tempsOnly, n);
    assert all + RET_CODE == all[..k] + (ws + RET_CODE);
    AtSplit(code, p, all[..k], ws + RET_CODE);
    AtSplit(code, p + k, ws, RET_CODE);
    PlainXFrame(t, isStore, tempsOnly, n);
    RunPlain(code, p + k, ws, x);
    var y := ExecSeq(ws, x);
    RaKept(t, isStore, tempsOnly, n, x);
    ReturnRuns(code, p + k + |ws|, y);
    RunsTrans(code, p + k, x, p + k + |ws|, y, R(x, RA) / 4, y);
  }
}
