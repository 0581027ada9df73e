/**
 Copying arguments and results: the code takes the smaller of two counts and copies that many
 tagged values downwards, one word at a time.
 */
module CopyLoop {
  import opened Words
  import opened Mips
  import opened Script
  import opened Target
  import opened Moves
  import opened ArithCode
  import opened ArithOps
  import opened BranchCode
  import opened Branch
  import opened ScriptRun
  import opened Bytecode
  import opened SimulateGo
  import opened Synthetic
  import opened Calls

  // ----- copying words one by one -----

  /** Word k goes from src - 4 k to dst - 4 k, in order of k. */
  function CopyDown(x: Data, dst: int, src: int, n: nat): Data {
    if n == 0 then x
    else
      var z := CopyDown(x, dst, src, n - 1);
      St(z, dst - 4 * (n - 1), Ld(z, src - 4 * (n - 1)))
  }

  /** The n words from src down are at dst down, as one simultaneous assignment, and no other word changed. */
  ghost predicate Block(x: Data, y: Data, dst: int, src: int, n: nat) {
    && (forall k :: 0 <= k < n ==> Ld(y, dst - 4 * k) == Ld(x, src - 4 * k))
    && (forall a :: !InBlock(a, dst, n) ==> Ld(y, a) == Ld(x, a))
  }

  predicate InBlock(a: int, top: int, n: nat) {
    exists k :: 0 <= k < n && a == top - 4 * k
  }

  lemma {:induction false} CopyOutside(x: Data, dst: int, src: int, n: nat, a: int)
    requires !InBlock(a, dst, n)
    ensures Ld(CopyDown(x, dst, src, n), a) == Ld(x, a)
    decreases n
  {
    if n > 0 {
      assert a != dst - 4 * (n - 1);
      CopyOutside(x, dst, src, n - 1, a);
    }
  }

  /** A source word not yet overwritten, or never to be, arrives as it was. */
  lemma {:induction false} CopyArrives(x: Data, dst: int, src: int, n: nat, k: nat)
    requires k < n && (dst >= src || dst <= src - 4 * n)
    ensures Ld(CopyDown(x, dst, src, n), dst - 4 * k) == Ld(x, src - 4 * k)
    decreases n
  {
    if k < n - 1 {
      CopyArrives(x, dst, src, n - 1, k);
    } else {
      if dst == src && k > 0 {
        CopyOutside(x, dst, src, k, src - 4 * k);
      } else {
        NotYet(dst, src, n, k);
        CopyOutside(x, dst, src, k, src - 4 * k);
      }
    }
  }

  lemma NotYet(dst: int, src: int, n: nat, k: nat)
    requires k < n && (dst >= src || dst <= src - 4 * n)
    ensures !InBlock(src - 4 * k, dst, k)
  {
    forall j | 0 <= j < k
      ensures src - 4 * k != dst - 4 * j
    {
    }
  }

  lemma CopyIsBlock(x: Data, dst: int, src: int, n: nat)
    requires dst >= src || dst <= src - 4 * n
    ensures Block(x, CopyDown(x, dst, src, n), dst, src, n)
  {
    forall k | 0 <= k < n
      ensures Ld(CopyDown(x, dst, src, n), dst - 4 * k) == Ld(x, src - 4 * k)
    {
      CopyArrives(x, dst, src, n, k);
    }
    forall a | !InBlock(a, dst, n)
      ensures Ld(CopyDown(x, dst, src, n), a) == Ld(x, a)
    {
      CopyOutside(x, dst, src, n, a);
    }
  }

  /** In an overlap from below, the first word copied comes round again. */
  lemma {:induction false} FirstComesRound(x: Data, dst: int, src: int, n: nat, d: nat)
    requires 0 < d < n && src - dst == 4 * d
    ensures Ld(CopyDown(x, dst, src, n), dst) == Ld(x, src)
    ensures d < n ==> Ld(CopyDown(x, dst, src, n), dst - 4 * d) == Ld(x, src)
    decreases n
  {
    FirstStays(x, dst, src, n);
    if n == d + 1 {
      FirstStays(x, dst, src, d);
    } else {
      FirstComesRound(x, dst, src, n - 1, d);
    }
  }

  lemma {:induction false} FirstStays(x: Data, dst: int, src: int, n: nat)
    requires n > 0
    ensures Ld(CopyDown(x, dst, src, n), dst) == Ld(x, src)
  {
    if n > 1 {
      FirstStays(x, dst, src, n - 1);
    }
  }

  /** Copying is one simultaneous block move whatever the memory holds. */
  ghost predicate AlwaysBlock(dst: int, src: int, n: nat) {
    forall x: Data :: Block(x, CopyDown(x, dst, src, n), dst, src, n)
  }

  /**
   For word-aligned blocks the loop is a simultaneous move in every state exactly when the
   destination is not below the source, or is below all of it.
   */
  lemma CopyBlockIff(dst: int, src: int, n: nat)
    requires (dst - src) % 4 == 0
    ensures AlwaysBlock(dst, src, n) <==> dst >= src || dst <= src - 4 * n
  {
    hide Block, CopyDown;
    if dst >= src || dst <= src - 4 * n {
      forall x: Data
        ensures Block(x, CopyDown(x, dst, src, n), dst, src, n)
      {
        CopyIsBlock(x, dst, src, n);
      }
    } else {
      var d: nat := (src - dst) / 4;
      assert src - dst == 4 * d by { Fourths(src - dst); }
      var x := Data(seq(32, _ => 0), map[src := 1], 0, 0);
      FirstComesRound(x, dst, src, n, d);
      NotBlock(x, CopyDown(x, dst, src, n), dst, src, n, d);
    }
  }

  lemma Fourths(a: int)
    requires a % 4 == 0
    ensures a == 4 * (a / 4)
  {
  }

  lemma NotBlock(x: Data, y: Data, dst: int, src: int, n: nat, d: nat)
    requires 0 < d < n && src - dst == 4 * d && x.mem == map[src := 1] && Ld(y, dst - 4 * d) == 1
    ensures !Block(x, y, dst, src, n)
  {
    assert Ld(x, src - 4 * d) == 0;
  }

  // ----- the emitted code -----

  const PREV0: Dest := ToLocal(0, false)

  function Exist(t: Target): Operand
    requires |t.spare| >= RA_SIZE
  {
    OpReg(t.spare[RA_EXIST])
  }

  function Expect(t: Target): Operand
    requires |t.spare| >= RA_SIZE
  {
    OpReg(t.spare[RA_EXPECT])
  }

  function Iter(t: Target): Operand
    requires |t.temps| > 0
  {
    OpReg(TempAt(t, 0))
  }

  /** d becomes the smaller of s and u. */
  function MinScript(t: Target, T: nat, d: Operand, s: Operand, u: Operand): seq<Ev>
    requires |t.temps| > 0 && !d.Imm? && !s.Imm?
  {
    ForkScript(IneqFork(t, T, s, SubZero(u), LT), NEXT0)
    + (Emits(MoveCode(t, T, d, u)) + ForkScript(JUMP, NEXT1))
    + [LabelLocal(0)]
    + Emits(MoveCode(t, T, d, s))
    + [LabelLocal(1)]
  }

  /** One value, and the pointers and the count moved on. */
  function CopyWords(t: Target, T: nat, iter: Reg, dst: Reg, src: Reg): seq<Instr>
    requires |t.temps| > 0
  {
    MoveCode(t, T, DAddr(dst, 0), DAddr(src, 0)) + MoveCode(t, T, DAddr(dst, -4), DAddr(src, -4))
    + [Addiu(dst, dst, -8)] + [Addiu(src, src, -8)] + [Addiu(iter, iter, 1)]
  }

  function LoopScript(t: Target, T: nat, iter: Reg, limit: Reg, dst: Reg, src: Reg): seq<Ev>
    requires |t.temps| > 0
  {
    [LabelLocal(0)] + ForkScript(EquFork(t, T, OpReg(iter), OpReg(limit), true), NEXT0)
    + Emits(CopyWords(t, T, iter, dst, src)) + ForkScript(JUMP, PREV0) + [LabelLocal(0)]
  }

  /** The copying part of the shared routine. */
  function CopyScript(t: Target): seq<Ev>
    requires |t.temps| > 0 && |t.spare| >= RA_SIZE
  {
    MinScript(t, 0, Exist(t), Exist(t), Expect(t))
    + Emits(AcquireCode(t, 0) + MoveCode(t, 1, Iter(t), Imm(0)))
    + LoopScript(t, 1, Iter(t).reg, Exist(t).reg, t.spare[RA_DST], t.spare[RA_SRC])
  }

  // ----- one iteration -----

  /** Lower than any address. */
  const LOWEST: int := -0x8000_0001

  predicate Apart(t: Target, q: Reg) {
    !t.IsTemp(q)
  }

  /** Equal as far as code with T temporaries sees, all of memory included. */
  ghost predicate Same(t: Target, T: nat, x: Data, y: Data)
    requires |t.temps| > 0
  {
    Sim(t, T, LOWEST, x, y)
  }

  lemma CopyWordOk(t: Target, x: Data, d: Operand, s: Operand)
    requires t.Valid() && |t.temps| >= 3 && d.DAddr? && s.DAddr? && Apart(t, d.base) && Apart(t, s.base)
    ensures MoveOk(t, 1, LOWEST, x, d, s)
  {
    NonTempSpared(t, 1, 1, d.base);
    NonTempSpared(t, 1, 2, d.base);
    NonTempSpared(t, 1, 1, s.base);
    NonTempSpared(t, 1, 2, s.base);
  }

  /** A word copied through a temporary. */
  lemma WordCopied(t: Target, x: Data, d: Operand, s: Operand)
    requires t.Valid() && |t.temps| >= 3 && d.DAddr? && s.DAddr? && Apart(t, d.base) && Apart(t, s.base)
    ensures Same(t, 1, St(x, EffAddr(x, d.base, d.offset), Ld(x, EffAddr(x, s.base, s.offset))), ExecSeq(MoveCode(t, 1, d, s), x))
  {
    hide MoveOk, ExecSeq, MoveCode, Sim;
    CopyWordOk(t, x, d, s);
    MoveMoves(t, 1, LOWEST, d, s, x);
  }

  lemma SameReads(t: Target, T: nat, x: Data, y: Data)
    requires t.Valid() && Same(t, T, x, y)
    ensures forall q: Reg :: Apart(t, q) ==> R(y, q) == R(x, q)
    ensures MemAgrees(LOWEST, x, y)
    ensures 0 < T <= |t.temps| ==> R(y, TempAt(t, 0)) == R(x, TempAt(t, 0))
  {
    forall q: Reg | Apart(t, q)
      ensures R(y, q) == R(x, q)
    {
      NonTempSpared(t, T, T, q);
    }
    if 0 < T <= |t.temps| {
      forall k | T <= k < T || T <= k < |t.temps|
        ensures TempAt(t, k) != TempAt(t, 0)
      {
        TempDistinct(t, 0, k);
      }
      assert Spared(t, T, T, TempAt(t, 0));
    }
  }

  /** Which of x's words and registers y still has, memory apart. */
  ghost predicate RegsKept(t: Target, x: Data, y: Data)
    requires |t.temps| > 0
  {
    (forall q: Reg :: Apart(t, q) ==> R(y, q) == R(x, q)) && R(y, TempAt(t, 0)) == R(x, TempAt(t, 0))
  }

  /** One word, at the same offset from both pointers. */
  lemma WordMoved(t: Target, x: Data, dst: Reg, src: Reg, off: Half)
    requires t.Valid() && |t.temps| >= 3 && Apart(t, dst) && Apart(t, src)
    requires IsWord(R(x, dst) + off) && IsWord(R(x, src) + off)
    ensures var y := ExecSeq(MoveCode(t, 1, DAddr(dst, off), DAddr(src, off)), x);
            RegsKept(t, x, y) && MemAgrees(LOWEST, St(x, R(x, dst) + off, Ld(x, R(x, src) + off)), y)
  {
    hide ExecSeq, MoveCode, Same, Norm, MemAgrees;
    NormWord(R(x, dst) + off);
    NormWord(R(x, src) + off);
    WordCopied(t, x, DAddr(dst, off), DAddr(src, off));
    SameReads(t, 1, St(x, R(x, dst) + off, Ld(x, R(x, src) + off)), ExecSeq(MoveCode(t, 1, DAddr(dst, off), DAddr(src, off)), x));
  }

  /** Both halves of one value are copied. */
  lemma PairCopied(t: Target, x: Data, dst: Reg, src: Reg)
    requires t.Valid() && |t.temps| >= 3 && Apart(t, dst) && Apart(t, src)
    requires R(x, dst) - 4 >= -0x8000_0000 && R(x, src) - 4 >= -0x8000_0000
    ensures var a, b := MoveCode(t, 1, DAddr(dst, 0), DAddr(src, 0)), MoveCode(t, 1, DAddr(dst, -4), DAddr(src, -4));
            var y := ExecSeq(b, ExecSeq(a, x));
            RegsKept(t, x, y) && MemAgrees(LOWEST, CopyDown(x, R(x, dst), R(x, src), 2), y)
  {
    hide ExecSeq, MoveCode, MemAgrees, Ld, CopyDown, Apart;
    var a, b := MoveCode(t, 1, DAddr(dst, 0), DAddr(src, 0)), MoveCode(t, 1, DAddr(dst, -4), DAddr(src, -4));
    var D: int, S: int := R(x, dst), R(x, src);
    WordMoved(t, x, dst, src, 0);
    var x1 := St(x, D, Ld(x, S));
    var y1 := ExecSeq(a, x);
    WordMoved(t, y1, dst, src, -4);
    TwoWords(x, D, S);
    StoreAgrees(x1, y1, D - 4, S - 4);
    AgreeTrans(St(x1, D - 4, Ld(x1, S - 4)), St(y1, D - 4, Ld(y1, S - 4)), ExecSeq(b, y1));
  }

  /** Memories that agree still agree after the same word is copied in both. */
  lemma StoreAgrees(x: Data, z: Data, d: int, s: int)
    requires s > LOWEST && MemAgrees(LOWEST, x, z)
    ensures MemAgrees(LOWEST, St(x, d, Ld(x, s)), St(z, d, Ld(z, s)))
  {
    forall p | p > LOWEST
      ensures Ld(St(z, d, Ld(z, s)), p) == Ld(St(x, d, Ld(x, s)), p)
    {
      assert Ld(z, p) == Ld(x, p) && Ld(z, s) == Ld(x, s);
    }
  }

  lemma TwoWords(x: Data, dst: int, src: int)
    ensures var z := St(x, dst, Ld(x, src)); CopyDown(x, dst, src, 2) == St(z, dst - 4, Ld(z, src - 4))
  {
    var z := St(x, dst, Ld(x, src));
    assert CopyDown(x, dst, src, 1) == z;
  }

  /** State after i values of those x0 had. */
  ghost predicate Copying(t: Target, x0: Data, x: Data, i: nat, c: nat, dst: Reg, src: Reg, limit: Reg)
    requires |t.temps| > 0
  {
    && i <= c && R(x, TempAt(t, 0)) == i && R(x, limit) == c
    && R(x, dst) == R(x0, dst) - 8 * i && R(x, src) == R(x0, src) - 8 * i
    && MemAgrees(LOWEST, CopyDown(x0, R(x0, dst), R(x0, src), 2 * i), x)
    && (forall q: Reg :: Apart(t, q) && q != dst && q != src ==> R(x, q) == R(x0, q))
  }

  /** The registers of the loop, and room for c values below both pointers. */
  ghost predicate LoopOk(t: Target, x0: Data, c: nat, dst: Reg, src: Reg, limit: Reg) {
    && t.Valid() && |t.temps| >= 3
    && Apart(t, dst) && Apart(t, src) && Apart(t, limit) && dst != ZERO && src != ZERO && limit != ZERO
    && dst != src && dst != limit && src != limit
    && R(x0, dst) - 8 * c >= -0x8000_0000 && R(x0, src) - 8 * c >= -0x8000_0000
  }

  /** Two more words on memory that agrees. */
  lemma CopyOn(x0: Data, x: Data, dst: int, src: int, n: nat)
    requires MemAgrees(LOWEST, CopyDown(x0, dst, src, n), x)
    requires src - 4 * n - 4 > LOWEST
    ensures MemAgrees(LOWEST, CopyDown(x0, dst, src, n + 2), CopyDown(x, dst - 4 * n, src - 4 * n, 2))
  {
    hide Ld, MemAgrees;
    var d, s := dst - 4 * n, src - 4 * n;
    var z := CopyDown(x0, dst, src, n);
    TwoWords(x, d, s);
    TwoMore(x0, dst, src, n);
    StoreAgrees(z, x, d, s);
    StoreAgrees(St(z, d, Ld(z, s)), St(x, d, Ld(x, s)), d - 4, s - 4);
  }

  lemma TwoMore(x: Data, dst: int, src: int, n: nat)
    ensures var z := CopyDown(x, dst, src, n);
            var z1 := St(z, dst - 4 * n, Ld(z, src - 4 * n));
            CopyDown(x, dst, src, n + 2) == St(z1, dst - 4 * n - 4, Ld(z1, src - 4 * n - 4))
  {
    var z1 := CopyDown(x, dst, src, n + 1);
    assert CopyDown(x, dst, src, n + 2) == St(z1, dst - 4 * (n + 1), Ld(z1, src - 4 * (n + 1)));
  }

  /** The three pointers and counters moved on. */
  lemma Advanced(t: Target, x: Data, iter: Reg, dst: Reg, src: Reg)
    requires iter != ZERO && dst != ZERO && src != ZERO && iter != dst && iter != src && dst != src
    requires R(x, dst) - 8 >= -0x8000_0000 && R(x, src) - 8 >= -0x8000_0000 && R(x, iter) < 0x7fff_ffff
    ensures var y := ExecSeq([Addiu(iter, iter, 1)], ExecSeq([Addiu(src, src, -8)], ExecSeq([Addiu(dst, dst, -8)], x)));
            && y.mem == x.mem && R(y, dst) == R(x, dst) - 8 && R(y, src) == R(x, src) - 8 && R(y, iter) == R(x, iter) + 1
            && forall q: Reg :: q != dst && q != src && q != iter ==> R(y, q) == R(x, q)
  {
    hide ExecSeq;
    ExecOne(Addiu(dst, dst, -8), x);
    var x1 := Exec(Addiu(dst, dst, -8), x);
    ExecOne(Addiu(src, src, -8), x1);
    var x2 := Exec(Addiu(src, src, -8), x1);
    ExecOne(Addiu(iter, iter, 1), x2);
    NormWord(R(x, dst) - 8);
    NormWord(R(x, src) - 8);
    NormWord(R(x, iter) + 1);
    hide Norm;
  }

  lemma ExecFive(a: seq<Instr>, b: seq<Instr>, c: seq<Instr>, d: seq<Instr>, e: seq<Instr>, x: Data)
    ensures ExecSeq(a + b + c + d + e, x) == ExecSeq(e, ExecSeq(d, ExecSeq(c, ExecSeq(b, ExecSeq(a, x)))))
  {
    hide ExecSeq;
    ExecFour(a, b, c, d, x);
    ExecConcat(a + b + c + d, e, x);
  }

  lemma AgreeTrans(x: Data, y: Data, z: Data)
    requires MemAgrees(LOWEST, x, y) && (MemAgrees(LOWEST, y, z) || z.mem == y.mem)
    ensures MemAgrees(LOWEST, x, z)
  {
    forall a | a > LOWEST
      ensures Ld(z, a) == Ld(x, a)
    {
      assert Ld(y, a) == Ld(x, a);
    }
  }

  /** One turn of the loop copies the next value. */
  lemma TurnCopies(t: Target, x0: Data, x: Data, i: nat, c: nat, dst: Reg, src: Reg, limit: Reg)
    requires LoopOk(t, x0, c, dst, src, limit) && Copying(t, x0, x, i, c, dst, src, limit) && i < c
    ensures Copying(t, x0, ExecSeq(CopyWords(t, 1, TempAt(t, 0), dst, src), x), i + 1, c, dst, src, limit)
  {
    hide ExecSeq, MoveCode, CopyDown, Norm, MemAgrees, Ld;
    var iter := TempAt(t, 0);
    TempOrdinary(t, 0);
    var a, b := MoveCode(t, 1, DAddr(dst, 0), DAddr(src, 0)), MoveCode(t, 1, DAddr(dst, -4), DAddr(src, -4));
    ExecFive(a, b, [Addiu(dst, dst, -8)], [Addiu(src, src, -8)], [Addiu(iter, iter, 1)], x);
    PairCopied(t, x, dst, src);
    var y := ExecSeq(b, ExecSeq(a, x));
    Advanced(t, y, iter, dst, src);
    CopyOn(x0, x, R(x0, dst), R(x0, src), 2 * i);
    assert R(x, dst) == R(x0, dst) - 4 * (2 * i) && R(x, src) == R(x0, src) - 4 * (2 * i);
    assert 2 * i + 2 == 2 * (i + 1);
    AgreeTrans(CopyDown(x0, R(x0, dst), R(x0, src), 2 * i + 2), CopyDown(x, R(x, dst), R(x, src), 2), y);
    AgreeTrans(CopyDown(x0, R(x0, dst), R(x0, src), 2 * i + 2), y, ExecSeq(CopyWords(t, 1, iter, dst, src), x));
  }
}
