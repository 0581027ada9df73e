/** assign_arg_regs over its matrix in place, and the machine code its moves come to. */
module ArgAssign {
  import opened Words
  import opened Mips
  import opened Script
  import opened Emitter32
  import opened Target
  import opened Moves
  import opened Machines
  import opened ArgMoves
  import opened ParallelMoves

  /** Argument registers there could be from the first one up. */
  const MAX_ARG_REGS: nat := 28

  function ArgReg(i: nat): Reg
    requires i < MAX_ARG_REGS
  {
    A0 + i
  }

  function Operands(t: Target, mv: ArgMove): (Operand, Operand)
    requires mv.dst < MAX_ARG_REGS && (mv.FromReg? ==> mv.src < MAX_ARG_REGS)
  {
    (OpReg(ArgReg(mv.dst)), if mv.FromReg? then OpReg(ArgReg(mv.src)) else TargetDAddr(t.sp, mv.off))
  }

  predicate InRegs(ms: seq<ArgMove>, n: nat) {
    n <= MAX_ARG_REGS && forall k :: 0 <= k < |ms| ==> ms[k].dst < n && (ms[k].FromReg? ==> ms[k].src < n)
  }

  function ArgCode(t: Target, ms: seq<ArgMove>, n: nat): seq<Instr>
    requires |t.temps| > 0 && InRegs(ms, n)
    decreases |ms|
  {
    if ms == [] then []
    else
      var (d, s) := Operands(t, ms[|ms| - 1]);
      ArgCode(t, ms[..|ms| - 1], n) + MoveCode(t, 0, d, s)
  }

  /** What argument registers hold. */
  function ArgRegs(x: Data, n: nat): (r: seq<Word>)
    requires n <= MAX_ARG_REGS
    ensures |r| == n && forall i :: 0 <= i < n ==> r[i] == R(x, ArgReg(i))
  {
    seq(n, i requires 0 <= i < n => R(x, ArgReg(i)))
  }

  /** The stack as the moves read it. */
  function StackAt(t: Target, x: Data): int -> Word {
    off => Ld(x, EffAddr(x, t.sp, Int16(off)))
  }

  predicate IsArgReg(r: Reg, n: nat) {
    A0 <= r < A0 + n
  }

  lemma ArgStep(t: Target, mv: ArgMove, n: nat, x: Data, z: Data)
    requires |t.temps| > 0 && n <= MAX_ARG_REGS && mv.dst < n && (mv.FromReg? ==> mv.src < n) && !IsArgReg(t.sp, n)
    requires z.mem == x.mem && R(z, t.sp) == R(x, t.sp)
    ensures var (d, s) := Operands(t, mv);
            var y := ExecSeq(MoveCode(t, 0, d, s), z);
            && ArgRegs(y, n) == MoveStep(ArgRegs(z, n), StackAt(t, x), mv)
            && y.mem == z.mem && forall q: Reg :: !IsArgReg(q, n) ==> R(y, q) == R(z, q)
  {
    hide ExecSeq, MoveCode, Norm, Int16;
    var (d, s) := Operands(t, mv);
    MoveExact(t, 0, d, s, z);
  }

  /** The code of the moves does to the registers what the moves do, and nothing else. */
  lemma {:induction false} ArgCodeRuns(t: Target, ms: seq<ArgMove>, n: nat, x: Data)
    requires |t.temps| > 0 && InRegs(ms, n) && !IsArgReg(t.sp, n)
    ensures var y := ExecSeq(ArgCode(t, ms, n), x);
            && ArgRegs(y, n) == RunMoves(ms, ArgRegs(x, n), StackAt(t, x))
            && y.mem == x.mem && forall q: Reg :: !IsArgReg(q, n) ==> R(y, q) == R(x, q)
    decreases |ms|
  {
    hide ExecSeq, MoveCode, MoveStep;
    if ms == [] {
      ExecNone(x);
    } else {
      var k := |ms| - 1;
      var (d, s) := Operands(t, ms[k]);
      var z := ExecSeq(ArgCode(t, ms[..k], n), x);
      ArgCodeRuns(t, ms[..k], n, x);
      ArgStep(t, ms[k], n, x, z);
      ExecConcat(ArgCode(t, ms[..k], n), MoveCode(t, 0, d, s), x);
    }
  }

  lemma MovesInRegs(g: Graph, sp: int)
    requires SingleSource(g) && |g| <= MAX_ARG_REGS
    ensures InRegs(Rounds(g, sp), |g|)
    decreases OffDiagonal(g, |g|), Edges(g, |g|)
  {
    hide Source, ScanTo, Broken;
    SourceShape(g);
    RoundDrops(g, sp - 4);
    ScanInRegs(g, |g|);
    var s := ScanTo(g, |g|);
    if s.unresolved > 0 {
      if s.resolved == 0 {
        MovesInRegs(Broken(s.g, s.unresolved, sp - 4), sp - 4);
      } else {
        MovesInRegs(s.g, sp);
      }
    }
  }

  lemma {:induction false} ScanInRegs(g: Graph, k: nat)
    requires SingleSource(g) && k <= |g| <= MAX_ARG_REGS
    ensures InRegs(ScanTo(g, k).moves, |g|)
  {
    hide Clear, ZeroCol;
    if k > 0 {
      ScanInRegs(g, k - 1);
    }
  }

  // ----- the matrix -----

  function GraphOf(a: array2<nat>): (g: Graph)
    requires a.Length0 == a.Length1
    reads a
    ensures Square(g) && |g| == a.Length0
    ensures forall i, j :: 0 <= i < |g| && 0 <= j < |g| ==> g[i][j] == a[i, j]
  {
    seq(a.Length0, i requires 0 <= i < a.Length0 reads a =>
      seq(a.Length1, j requires 0 <= i < a.Length0 && 0 <= j < a.Length1 reads a => a[i, j]))
  }

  lemma GraphIs(a: array2<nat>, g: Graph)
    requires a.Length0 == a.Length1 == |g| && Square(g)
    requires forall i, j :: 0 <= i < |g| && 0 <= j < |g| ==> a[i, j] == g[i][j]
    ensures GraphOf(a) == g
  {
    forall i | 0 <= i < |g|
      ensures GraphOf(a)[i] == g[i]
    {
    }
  }

  method FindSource(a: array2<nat>, r: nat) returns (v: nat)
    requires a.Length0 == a.Length1 && r < a.Length0
    ensures v == Source(GraphOf(a), r)
  {
    ghost var row := GraphOf(a)[r];
    var j := 0;
    while j < a.Length1
      invariant 0 <= j <= a.Length1
      invariant ZeroRow(row, j) == ZeroRow(row, 0)
    {
      if a[r, j] != 0 {
        return j + 1;
      }
      j := j + 1;
    }
    v := 0;
  }

  method IsFree(a: array2<nat>, c: nat) returns (b: bool)
    requires a.Length0 == a.Length1 && c < a.Length0
    ensures b == ZeroCol(GraphOf(a), c)
  {
    var i := 0;
    while i < a.Length0
      invariant 0 <= i <= a.Length0
      invariant forall k :: 0 <= k < i && k != c ==> a[k, c] == 0
    {
      if i != c && a[i, c] != 0 {
        assert GraphOf(a)[i][c] != 0;
        return false;
      }
      i := i + 1;
    }
    b := true;
  }

  lemma BrokenEntry(g: Graph, v: nat, sp: int, i: nat, j: nat)
    requires Square(g) && 0 < v <= |g| && i < |g| && j < |g|
    ensures Broken(g, v, sp)[i][j] ==
            if Source(g, i) != v then g[i][j] else if j == i then sp % 0x100 else if j == v - 1 then 0 else g[i][j]
  {
  }

  method BreakRow(a: array2<nat>, i: nat, v: nat, sp: int)
    requires a.Length0 == a.Length1 && i < a.Length0 && 0 < v <= a.Length0
    modifies a
    ensures forall j :: 0 <= j < a.Length0 ==> a[i, j] == Broken(old(GraphOf(a)), v, sp)[i][j]
    ensures forall k, j :: 0 <= k < a.Length0 && 0 <= j < a.Length0 && k != i ==> a[k, j] == old(a[k, j])
  {
    hide Source, Broken;
    ghost var g := GraphOf(a);
    forall j | 0 <= j < |g|
      ensures Broken(g, v, sp)[i][j] == if Source(g, i) != v then g[i][j] else if j == i then sp % 0x100 else if j == v - 1 then 0 else g[i][j]
    {
      BrokenEntry(g, v, sp, i, j);
    }
    var s := FindSource(a, i);
    if s == v {
      a[i, v - 1] := 0;
      a[i, i] := sp % 0x100;
    }
  }

  lemma SameRow(g: Graph, h: Graph, v: nat, sp: int, i: nat)
    requires Square(g) && Square(h) && |g| == |h| && 0 < v <= |g| && i < |g| && g[i] == h[i]
    ensures Broken(g, v, sp)[i] == Broken(h, v, sp)[i]
  {
  }

  /** Replace the edges out of v by stack references, row by row. */
  method ResolvCycle(a: array2<nat>, v: nat, sp: int) returns (sp': int)
    requires a.Length0 == a.Length1 && 0 < v <= a.Length0
    modifies a
    ensures sp' == sp - 4 && GraphOf(a) == Broken(old(GraphOf(a)), v, sp')
  {
    hide Source, Broken;
    ghost var g := GraphOf(a);
    sp' := sp - 4;
    ghost var h := Broken(g, v, sp');
    var i := 0;
    while i < a.Length0
      invariant 0 <= i <= a.Length0
      invariant forall k, j :: 0 <= k < i && 0 <= j < |g| ==> a[k, j] == h[k][j]
      invariant forall k, j :: i <= k < |g| && 0 <= j < |g| ==> a[k, j] == g[k][j]
    {
      assert GraphOf(a)[i] == g[i];
      SameRow(g, GraphOf(a), v, sp', i);
      BreakRow(a, i, v, sp');
      i := i + 1;
    }
    GraphIs(a, h);
  }

  lemma {:induction false} ArgCodeConcat(t: Target, ms: seq<ArgMove>, ns: seq<ArgMove>, n: nat)
    requires |t.temps| > 0 && InRegs(ms, n) && InRegs(ns, n)
    ensures InRegs(ms + ns, n) && ArgCode(t, ms + ns, n) == ArgCode(t, ms, n) + ArgCode(t, ns, n)
    decreases |ns|
  {
    hide MoveCode;
    if ns == [] {
      assert ms + ns == ms;
    } else {
      var k := |ns| - 1;
      assert (ms + ns)[..|ms + ns| - 1] == ms + ns[..k];
      ArgCodeConcat(t, ms, ns[..k], n);
    }
  }

  lemma ArgCodeOne(t: Target, mv: ArgMove, n: nat, T: nat)
    requires |t.temps| > 0 && InRegs([mv], n) && mv.dst < n && (mv.FromReg? ==> mv.src < n)
    ensures ArgCode(t, [mv], n) == MoveCode(t, T, Operands(t, mv).0, Operands(t, mv).1)
  {
    assert [mv][..0] == [];
  }

  method EmitArgMove(e: Emitter, m: Machine, mv: ArgMove, ghost n: nat)
    requires Ready(e, m) && InRegs([mv], n) && mv.dst < n && (mv.FromReg? ==> mv.src < n)
    modifies e.Repr, m, m.reg
    ensures Appended(e, m, ArgCode(m.t, [mv], n))
  {
    hide Emitter.Valid, Machine.Valid, MoveCode;
    ArgCodeOne(m.t, mv, n, m.live);
    var d: Operand := OpReg(ArgReg(mv.dst));
    var s := if mv.FromReg? then OpReg(ArgReg(mv.src)) else TargetDAddr(m.sp, mv.off);
    SameSp(m);
    Move(e, m, d, s);
  }

  lemma SameSp(m: Machine)
    requires m.Valid()
    ensures m.sp == m.t.sp
  {
  }

  lemma ClearEntry(g: Graph, i: nat, v: nat)
    requires Square(g) && i < |g| && v < |g|
    ensures forall k, j :: 0 <= k < |g| && 0 <= j < |g| ==> Clear(g, i, v)[k][j] == if k == i && j == v then 0 else g[k][j]
  {
  }

  method ClearAt(a: array2<nat>, i: nat, v: nat)
    requires a.Length0 == a.Length1 && i < a.Length0 && v < a.Length0
    modifies a
    ensures GraphOf(a) == Clear(old(GraphOf(a)), i, v)
  {
    ghost var g := GraphOf(a);
    ClearEntry(g, i, v);
    a[i, v] := 0;
    GraphIs(a, Clear(g, i, v));
  }

  /** Visit row i of the matrix h. */
  method VisitRow(e: Emitter, m: Machine, a: array2<nat>, i: nat) returns (v: nat, isFree: bool)
    requires Ready(e, m) && a !in e.Repr && (a as object) != m.reg && i < a.Length0 == a.Length1 <= MAX_ARG_REGS
    modifies e.Repr, m, m.reg, a
    ensures var h, n := old(GraphOf(a)), a.Length0;
            && v == Source(h, i) && isFree == (RowMoves(h, i) != [])
            && InRegs(RowMoves(h, i), n) && Appended(e, m, ArgCode(m.t, RowMoves(h, i), n))
            && GraphOf(a) == if isFree then Clear(h, i, v - 1) else h
    ensures a !in e.Repr
  {
    hide Emitter.Valid, Machine.Valid, ZeroCol, Clear, ArgCode, ZeroRow, Emits;
    ghost var n := a.Length0;
    NoCode(m.t, n, e.script);
    v := FindSource(a, i);
    isFree := false;
    if v != 0 {
      isFree := IsFree(a, i);
      if isFree {
        var mv := if v - 1 == i then FromStack(i, a[i, i]) else FromReg(i, v - 1);
        EmitArgMove(e, m, mv, n);
        ClearAt(a, i, v - 1);
      }
    }
  }

  /** One pass: each row whose register nobody else needs is moved and cleared. */
  method ResolvePass(e: Emitter, m: Machine, a: array2<nat>) returns (unresolved: nat, resolved: nat)
    requires Ready(e, m) && a !in e.Repr && (a as object) != m.reg && a.Length0 == a.Length1 <= MAX_ARG_REGS && SingleSource(GraphOf(a))
    modifies e.Repr, m, m.reg, a
    ensures var s := ScanTo(old(GraphOf(a)), a.Length0);
            && InRegs(s.moves, a.Length0) && Appended(e, m, ArgCode(m.t, s.moves, a.Length0))
            && GraphOf(a) == s.g && unresolved == s.unresolved && resolved == s.resolved
    ensures a !in e.Repr
  {
    hide Emitter.Valid, Machine.Valid, Source, ZeroCol, Clear, SingleSource, ArgCode, ScanTo, RowMoves, InRegs, Emits;
    ghost var g, n := GraphOf(a), a.Length0;
    unresolved, resolved := 0, 0;
    var i := 0;
    NoCode(m.t, n, e.script);
    ScanStarts(g);
    while i < a.Length0
      invariant 0 <= i <= n && a !in e.Repr
      invariant InRegs(ScanTo(g, i).moves, n) && Appended(e, m, ArgCode(m.t, ScanTo(g, i).moves, n))
      invariant GraphOf(a) == ScanTo(g, i).g && unresolved == ScanTo(g, i).unresolved && resolved == ScanTo(g, i).resolved
    {
      ghost var s := ScanTo(g, i);
      ScanVisits(g, i);
      var v, isFree := VisitRow(e, m, a, i);
      ArgCodeConcat(m.t, s.moves, RowMoves(s.g, i), n);
      EmitsAppend(old(e.script), ArgCode(m.t, s.moves, n), ArgCode(m.t, RowMoves(s.g, i), n));
      if isFree {
        resolved := resolved + 1;
      } else if v != 0 {
        unresolved := i + 1;
      }
      i := i + 1;
    }
  }

  lemma NoCode(t: Target, n: nat, s: seq<Ev>)
    requires |t.temps| > 0 && n <= MAX_ARG_REGS
    ensures InRegs([], n) && ArgCode(t, [], n) == [] && s + Emits(ArgCode(t, [], n)) == s
  {
  }

  lemma Reassociate(t: Target, s: seq<Ev>, ms: seq<ArgMove>, a: seq<ArgMove>, b: seq<ArgMove>, n: nat)
    requires |t.temps| > 0 && InRegs(ms, n) && InRegs(a, n) && InRegs(b, n)
    ensures InRegs(ms + a, n) && s + Emits(ArgCode(t, ms, n)) + Emits(ArgCode(t, a, n)) == s + Emits(ArgCode(t, ms + a, n))
    ensures ms + (a + b) == ms + a + b
  {
    ArgCodeConcat(t, ms, a, n);
    EmitsAppend(s, ArgCode(t, ms, n), ArgCode(t, a, n));
  }

  /** What one round leaves to do: nothing, or the rounds of what the matrix then is. */
  ghost predicate RoundLeft(g: Graph, sp: int, h: Graph, sp': int, more: bool)
    requires SingleSource(g)
  {
    && SingleSource(h) && |h| == |g|
    && Rounds(g, sp) == ScanTo(g, |g|).moves + (if more then Rounds(h, sp') else [])
    && (more ==> OffDiagonal(h, |g|) < OffDiagonal(g, |g|) || (OffDiagonal(h, |g|) == OffDiagonal(g, |g|) && Edges(h, |g|) < Edges(g, |g|)))
  }

  /** A pass, and the breaking of a cycle if it resolved nothing. */
  method Round(e: Emitter, m: Machine, a: array2<nat>, stack: int) returns (stack': int, more: bool)
    requires Ready(e, m) && a !in e.Repr && (a as object) != m.reg && a.Length0 == a.Length1 <= MAX_ARG_REGS && SingleSource(GraphOf(a))
    modifies e.Repr, m, m.reg, a
    ensures var s := ScanTo(old(GraphOf(a)), a.Length0);
            InRegs(s.moves, a.Length0) && Appended(e, m, ArgCode(m.t, s.moves, a.Length0))
    ensures RoundLeft(old(GraphOf(a)), stack, GraphOf(a), stack', more) && a !in e.Repr
  {
    hide Emitter.Valid, Machine.Valid, Source, ZeroCol, Clear, SingleSource, ArgCode, ScanTo, InRegs, Broken, OffDiagonal, Edges, Emits;
    ghost var g := GraphOf(a);
    RoundDrops(g, stack - 4);
    var unresolved, resolved := ResolvePass(e, m, a);
    stack' := stack;
    if unresolved != 0 && resolved == 0 {
      stack' := ResolvCycle(a, unresolved, stack);
    }
    more := unresolved != 0;
  }

  /** Passes over the matrix, emitting each move as its row is resolved, until none is left. */
  method AssignArgRegs(e: Emitter, m: Machine, a: array2<nat>)
    requires Ready(e, m) && a !in e.Repr && (a as object) != m.reg && a.Length0 == a.Length1 <= MAX_ARG_REGS && SingleSource(GraphOf(a))
    modifies e.Repr, m, m.reg, a
    ensures InRegs(Rounds(old(GraphOf(a)), -4), a.Length0)
    ensures Appended(e, m, ArgCode(m.t, Rounds(old(GraphOf(a)), -4), a.Length0))
  {
    hide Emitter.Valid, Machine.Valid, SingleSource, ArgCode, ScanTo, InRegs, OffDiagonal, Edges, Emits, Rounds;
    ghost var g0, n := GraphOf(a), a.Length0;
    ghost var done: seq<ArgMove> := [];
    var stack := -4;
    var more := true;
    NoCode(m.t, n, e.script);
    while more
      invariant a !in e.Repr && InRegs(done, n) && Appended(e, m, ArgCode(m.t, done, n))
      invariant SingleSource(GraphOf(a))
      invariant Rounds(g0, -4) == if more then done + Rounds(GraphOf(a), stack) else done
      decreases more, OffDiagonal(GraphOf(a), n), Edges(GraphOf(a), n)
    {
      ghost var g, was := GraphOf(a), stack;
      ghost var ms := ScanTo(g, n).moves;
      stack, more := Round(e, m, a, stack);
      Reassociate(m.t, old(e.script), done, ms, [], n);
      assert more ==> done + (ms + Rounds(GraphOf(a), stack)) == done + ms + Rounds(GraphOf(a), stack);
      assert ms + [] == ms;
      done := done + ms;
    }
  }
}
