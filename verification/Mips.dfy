/**
 The MIPS32 subset the compiler emits, after the instruction descriptions of
 "MIPS32 Architecture for Programmers, Volume II". Code addresses are word indexes; an
 address register holds four times the index. Memory is a map from byte address to word.
 */
module Mips {
  import opened Words

  type Reg = r: int | 0 <= r < 32

  const ZERO: Reg := 0
  const V0: Reg := 2
  const A0: Reg := 4
  const A1: Reg := 5
  const A2: Reg := 6
  const A3: Reg := 7
  const SP: Reg := 29
  const FP: Reg := 30
  const RA: Reg := 31

  datatype Instr =
    | Addiu(rt: Reg, rs: Reg, imm: Half)
    | Addu(rd: Reg, rs: Reg, rt: Reg)
    | Subu(rd: Reg, rs: Reg, rt: Reg)
    | Or(rd: Reg, rs: Reg, rt: Reg)
    | Ori(rt: Reg, rs: Reg, uimm: int)
    | Lui(rt: Reg, uimm: int)
    | Mul(rd: Reg, rs: Reg, rt: Reg)
    | Div(rs: Reg, rt: Reg)
    | Divu(rs: Reg, rt: Reg)
    | Mflo(rd: Reg)
    | Mfhi(rd: Reg)
    | Sll(rd: Reg, rt: Reg, sa: nat)
    | Srl(rd: Reg, rt: Reg, sa: nat)
    | Sra(rd: Reg, rt: Reg, sa: nat)
    | Lw(rt: Reg, base: Reg, offset: Half)
    | Sw(rt: Reg, base: Reg, offset: Half)
    | Beq(rs: Reg, rt: Reg, off: Half)
    | Bne(rs: Reg, rt: Reg, off: Half)
    | Bltz(rs: Reg, off: Half)
    | Bgez(rs: Reg, off: Half)
    | Blez(rs: Reg, off: Half)
    | Bgtz(rs: Reg, off: Half)
    | J(target: nat)
    | Jal(target: nat)
    | Jr(rs: Reg)
    | Jalr(rs: Reg)

  /** The all-zero word, `sll zero, zero, 0`. */
  const NOP: Instr := Sll(ZERO, ZERO, 0)

  type RegFile = s: seq<Word> | |s| == 32 witness seq(32, _ => 0)

  datatype Data = Data(regs: RegFile, mem: map<int, Word>, hi: Word, lo: Word)

  /** Register zero reads as zero. */
  function R(x: Data, r: Reg): Word {
    if r == ZERO then 0 else x.regs[r]
  }

  /** The state x with other memory. */
  function Remember(x: Data, mem: map<int, Word>): Data {
    x.(mem := mem)
  }

  /** Writes to register zero are dropped. */
  function W(x: Data, r: Reg, v: Word): Data {
    if r == ZERO then x else x.(regs := x.regs[r := v])
  }

  function Ld(x: Data, a: int): Word {
    if a in x.mem then x.mem[a] else 0
  }

  function St(x: Data, a: int, v: Word): Data {
    x.(mem := x.mem[a := v])
  }

  function EffAddr(x: Data, base: Reg, offset: int): Word {
    Norm(R(x, base) + offset)
  }

  predicate IsBranch(i: Instr) {
    i.Beq? || i.Bne? || i.Bltz? || i.Bgez? || i.Blez? || i.Bgtz?
  }

  predicate IsControl(i: Instr) {
    IsBranch(i) || i.J? || i.Jal? || i.Jr? || i.Jalr?
  }

  function UpperWord(uimm: int): Word {
    Int16(uimm) * 0x1_0000
  }

  /** Effect of one instruction on registers and memory. Control transfers are Step's. */
  function Exec(i: Instr, x: Data): Data {
    match i
    case Addiu(rt, rs, imm) => W(x, rt, Norm(R(x, rs) + imm))
    case Addu(rd, rs, rt) => W(x, rd, Norm(R(x, rs) + R(x, rt)))
    case Subu(rd, rs, rt) => W(x, rd, Norm(R(x, rs) - R(x, rt)))
    case Or(rd, rs, rt) => W(x, rd, Or32(R(x, rs), R(x, rt)))
    case Ori(rt, rs, u) => W(x, rt, Or32(R(x, rs), u % 0x1_0000))
    case Lui(rt, u) => W(x, rt, UpperWord(u))
    case Mul(rd, rs, rt) => W(x, rd, Norm(R(x, rs) * R(x, rt)))
    case Div(rs, rt) =>
      // the result of a division by zero is unpredictable; it stays what it was here
      if R(x, rt) == 0 then x
      else x.(lo := Norm(TruncDiv(R(x, rs), R(x, rt))), hi := Norm(TruncMod(R(x, rs), R(x, rt))))
    case Divu(rs, rt) =>
      if R(x, rt) == 0 then x
      else x.(lo := Norm(Unsigned(R(x, rs)) / Unsigned(R(x, rt))), hi := Norm(Unsigned(R(x, rs)) % Unsigned(R(x, rt))))
    case Mflo(rd) => W(x, rd, x.lo)
    case Mfhi(rd) => W(x, rd, x.hi)
    case Sll(rd, rt, sa) => W(x, rd, Norm(R(x, rt) * Pow2(sa)))
    case Srl(rd, rt, sa) => W(x, rd, Norm(Unsigned(R(x, rt)) / Pow2(sa)))
    case Sra(rd, rt, sa) => W(x, rd, Norm(R(x, rt) / Pow2(sa)))
    case Lw(rt, base, offset) => W(x, rt, Ld(x, EffAddr(x, base, offset)))
    case Sw(rt, base, offset) => St(x, EffAddr(x, base, offset), R(x, rt))
    case _ => x
  }

  predicate Taken(i: Instr, x: Data)
    requires IsBranch(i)
  {
    match i
    case Beq(rs, rt, _) => R(x, rs) == R(x, rt)
    case Bne(rs, rt, _) => R(x, rs) != R(x, rt)
    case Bltz(rs, _) => R(x, rs) < 0
    case Bgez(rs, _) => R(x, rs) >= 0
    case Blez(rs, _) => R(x, rs) <= 0
    case Bgtz(rs, _) => R(x, rs) > 0
  }

  /** Replace the low sixteen bits of a branch word. */
  function SetOffset(i: Instr, off: Half): (j: Instr)
    requires IsBranch(i)
    ensures IsBranch(j) && j.off == off
    ensures forall x :: Taken(j, x) == Taken(i, x)
  {
    i.(off := off)
  }

  /** Straight-line code, executed first to last. */
  function ExecSeq(ws: seq<Instr>, x: Data): Data
    decreases |ws|
  {
    if ws == [] then x else Exec(ws[|ws| - 1], ExecSeq(ws[..|ws| - 1], x))
  }

  lemma ExecNone(x: Data)
    ensures ExecSeq([], x) == x
  {
  }

  lemma ExecOne(i: Instr, x: Data)
    ensures ExecSeq([i], x) == Exec(i, x)
  {
    assert [i][..0] == [];
  }

  lemma ExecSw(r: Reg, base: Reg, offset: Half, x: Data)
    ensures ExecSeq([Sw(r, base, offset)], x) == St(x, EffAddr(x, base, offset), R(x, r))
  {
    ExecOne(Sw(r, base, offset), x);
  }

  lemma ExecTwo(i: Instr, j: Instr, x: Data)
    ensures ExecSeq([i, j], x) == Exec(j, Exec(i, x))
  {
    assert [i, j][..1] == [i];
    ExecOne(i, x);
  }

  lemma {:induction false} ExecConcat(a: seq<Instr>, b: seq<Instr>, x: Data)
    ensures ExecSeq(a + b, x) == ExecSeq(b, ExecSeq(a, x))
    decreases |b|
  {
    if b == [] {
      assert a + b == a;
    } else {
      var n := |b| - 1;
      assert (a + b)[..|a + b| - 1] == a + b[..n];
      ExecConcat(a, b[..n], x);
    }
  }

  lemma ExecThree(a: seq<Instr>, b: seq<Instr>, c: seq<Instr>, x: Data)
    ensures ExecSeq(a + b + c, x) == ExecSeq(c, ExecSeq(b, ExecSeq(a, x)))
  {
    hide ExecSeq;
    ExecConcat(a, b, x);
    ExecConcat(a + b, c, x);
  }

  lemma ExecFour(a: seq<Instr>, b: seq<Instr>, c: seq<Instr>, d: seq<Instr>, x: Data)
    ensures ExecSeq(a + b + c + d, x) == ExecSeq(d, ExecSeq(c, ExecSeq(b, ExecSeq(a, x))))
  {
    hide ExecSeq;
    ExecConcat(a, b, x);
    ExecConcat(a + b, c, x);
    ExecConcat(a + b + c, d, x);
  }

  lemma ExecAppend(a: seq<Instr>, i: Instr, x: Data)
    ensures ExecSeq(a + [i], x) == Exec(i, ExecSeq(a, x))
  {
    assert (a + [i])[..|a|] == a;
  }

  predicate Plain(ws: seq<Instr>) {
    forall k :: 0 <= k < |ws| ==> !IsControl(ws[k])
  }

  // ----- control flow: the pc, the next pc, and so one delay slot -----

  datatype Cfg = Cfg(pc: int, npc: int, x: Data)

  /** About to execute index p, with no branch pending. */
  function Here(p: int, x: Data): Cfg {
    Cfg(p, p + 1, x)
  }

  function Step(code: seq<Instr>, c: Cfg): Cfg
    requires 0 <= c.pc < |code|
  {
    var i := code[c.pc];
    if IsBranch(i) then
      Cfg(c.npc, if Taken(i, c.x) then c.pc + 1 + i.off else c.npc + 1, c.x)
    else match i
      case J(target) => Cfg(c.npc, target, c.x)
      case Jal(target) => Cfg(c.npc, target, W(c.x, RA, Norm(4 * (c.pc + 2))))
      case Jr(rs) => Cfg(c.npc, R(c.x, rs) / 4, c.x)
      case Jalr(rs) => Cfg(c.npc, R(c.x, rs) / 4, W(c.x, RA, Norm(4 * (c.pc + 2))))
      case _ => Cfg(c.npc, c.npc + 1, Exec(i, c.x))
  }

  ghost predicate Steps(code: seq<Instr>, k: nat, c: Cfg, c': Cfg)
    decreases k
  {
    if k == 0 then c == c'
    else 0 <= c.pc < |code| && Steps(code, k - 1, Step(code, c), c')
  }

  /** Control gets from index p to index q, turning x into y. */
  ghost predicate Runs(code: seq<Instr>, p: int, x: Data, q: int, y: Data) {
    exists k: nat :: Steps(code, k, Here(p, x), Here(q, y))
  }

  predicate At(code: seq<Instr>, p: int, ws: seq<Instr>) {
    0 <= p && p + |ws| <= |code| && code[p..p + |ws|] == ws
  }

  lemma {:induction false} StepsTrans(code: seq<Instr>, j: nat, k: nat, a: Cfg, b: Cfg, c: Cfg)
    requires Steps(code, j, a, b) && Steps(code, k, b, c)
    ensures Steps(code, j + k, a, c)
    decreases j
  {
    if j > 0 {
      StepsTrans(code, j - 1, k, Step(code, a), b, c);
    }
  }

  lemma RunsRefl(code: seq<Instr>, p: int, x: Data)
    ensures Runs(code, p, x, p, x)
  {
    assert Steps(code, 0, Here(p, x), Here(p, x));
  }

  lemma RunsTrans(code: seq<Instr>, p: int, x: Data, q: int, y: Data, r: int, z: Data)
    requires Runs(code, p, x, q, y) && Runs(code, q, y, r, z)
    ensures Runs(code, p, x, r, z)
  {
    var j: nat :| Steps(code, j, Here(p, x), Here(q, y));
    var k: nat :| Steps(code, k, Here(q, y), Here(r, z));
    StepsTrans(code, j, k, Here(p, x), Here(q, y), Here(r, z));
  }

  lemma AtSplit(code: seq<Instr>, p: int, a: seq<Instr>, b: seq<Instr>)
    requires At(code, p, a + b)
    ensures At(code, p, a) && At(code, p + |a|, b)
  {
    var s := code[p..p + |a + b|];
    assert s[..|a|] == a && s[|a|..] == b;
    assert code[p..p + |a|] == s[..|a|];
    assert code[p + |a|..p + |a| + |b|] == s[|a|..];
  }

  lemma StepPlain(code: seq<Instr>, p: int, i: Instr, x: Data)
    requires At(code, p, [i]) && !IsControl(i)
    ensures Runs(code, p, x, p + 1, Exec(i, x))
  {
    assert code[p] == i by { assert code[p..p + 1][0] == i; }
    var y := Exec(i, x);
    hide Exec;
    assert Steps(code, 0, Here(p + 1, y), Here(p + 1, y));
    assert Steps(code, 1, Here(p, x), Here(p + 1, y));
  }

  /** Straight-line code falls through with the effect of ExecSeq. */
  lemma {:induction false} RunPlain(code: seq<Instr>, p: int, ws: seq<Instr>, x: Data)
    requires At(code, p, ws) && Plain(ws)
    ensures Runs(code, p, x, p + |ws|, ExecSeq(ws, x))
    decreases |ws|
  {
    hide Exec, Runs;
    if ws == [] {
      RunsRefl(code, p, x);
    } else {
      var n := |ws| - 1;
      var a, i := ws[..n], ws[n];
      assert ws == a + [i];
      AtSplit(code, p, a, [i]);
      RunPlain(code, p, a, x);
      StepPlain(code, p + n, i, ExecSeq(a, x));
      RunsTrans(code, p, x, p + n, ExecSeq(a, x), p + n + 1, ExecSeq(ws, x));
    }
  }

  /** A branch decides on the state before it; its delay slot is executed on both paths. */
  lemma RunBranch(code: seq<Instr>, p: int, b: Instr, slot: Instr, x: Data)
    requires At(code, p, [b, slot]) && IsBranch(b) && !IsControl(slot)
    ensures Runs(code, p, x, if Taken(b, x) then p + 1 + b.off else p + 2, Exec(slot, x))
  {
    assert code[p] == b && code[p + 1] == slot by {
      assert code[p..p + 2][0] == b && code[p..p + 2][1] == slot;
    }
    var q := if Taken(b, x) then p + 1 + b.off else p + 2;
    var c0 := Here(p, x);
    var c1 := Cfg(p + 1, q, x);
    var c2 := Here(q, Exec(slot, x));
    assert Step(code, c0) == c1 && Step(code, c1) == c2;
    assert Steps(code, 0, c2, c2);
    assert Steps(code, 1, c1, c2);
    assert Steps(code, 2, c0, c2);
  }

  /** An absolute jump takes its destination from the state before its delay slot. */
  lemma RunJump(code: seq<Instr>, p: int, i: Instr, slot: Instr, x: Data)
    requires At(code, p, [i, slot]) && (i.J? || i.Jr?) && !IsControl(slot)
    ensures Runs(code, p, x, if i.J? then i.target else R(x, i.rs) / 4, Exec(slot, x))
  {
    assert code[p] == i && code[p + 1] == slot by {
      assert code[p..p + 2][0] == i && code[p..p + 2][1] == slot;
    }
    var q: int := if i.J? then i.target else R(x, i.rs) / 4;
    var c0 := Here(p, x);
    var c1 := Cfg(p + 1, q, x);
    var c2 := Here(q, Exec(slot, x));
    hide Exec;
    assert Step(code, c0) == c1 && Step(code, c1) == c2;
    assert Steps(code, 0, c2, c2);
    assert Steps(code, 1, c1, c2);
    assert Steps(code, 2, c0, c2);
  }
}
