/** What the emitted argument moves do, executed in order: the parallel assignment, or not. */
module ParallelMoves {
  import opened Words
  import opened ArgMoves

  /** One move on the argument registers; stack gives the word at each offset from sp. */
  function MoveStep(r: seq<Word>, stack: int -> Word, m: ArgMove): (q: seq<Word>)
    ensures |q| == |r|
  {
    match m
    case FromReg(d, s) => if d < |r| && s < |r| then r[d := r[s]] else r
    case FromStack(d, off) => if d < |r| then r[d := stack(off)] else r
  }

  function RunMoves(ms: seq<ArgMove>, r: seq<Word>, stack: int -> Word): (q: seq<Word>)
    ensures |q| == |r|
    decreases |ms|
  {
    if ms == [] then r else MoveStep(RunMoves(ms[..|ms| - 1], r, stack), stack, ms[|ms| - 1])
  }

  lemma {:induction false} RunConcat(a: seq<ArgMove>, b: seq<ArgMove>, r: seq<Word>, stack: int -> Word)
    ensures RunMoves(a + b, r, stack) == RunMoves(b, RunMoves(a, r, stack), stack)
    decreases |b|
  {
    if b == [] {
      assert a + b == a;
    } else {
      var n := |b| - 1;
      assert (a + b)[..|a + b| - 1] == a + b[..n];
      RunConcat(a, b[..n], r, stack);
    }
  }

  /** Every argument at once: its source's original value, or its own when it has no source. */
  function Parallel(g: Graph, r: seq<Word>): (q: seq<Word>)
    requires Square(g) && |r| == |g|
    ensures |q| == |g|
  {
    seq(|g|, i requires 0 <= i < |g| => if Source(g, i) == 0 then r[i] else r[Source(g, i) - 1])
  }

  /** The graph has no cycle, nor an argument that is its own source: it can be ranked. */
  predicate RankedBy(g: Graph, rk: seq<nat>)
    requires Square(g)
  {
    |rk| == |g| && forall i :: 0 <= i < |g| && Source(g, i) != 0 ==> rk[i] < rk[Source(g, i) - 1]
  }

  ghost predicate Acyclic(g: Graph)
    requires Square(g)
  {
    exists rk :: RankedBy(g, rk)
  }

  // ----- acyclic graphs: the moves are right -----

  /** The rows of g0 that g has lost are done; the others are untouched. */
  predicate Done(g0: Graph, g: Graph, i: nat)
    requires Square(g0) && Square(g) && |g| == |g0| && i < |g|
  {
    Source(g, i) == 0 && Source(g0, i) != 0
  }

  predicate Progress(g0: Graph, g: Graph, r0: seq<Word>, r: seq<Word>)
    requires Square(g0) && Square(g) && |g| == |g0|
  {
    && |r0| == |g0| && |r| == |g0| && Kept(g0, g)
    && (forall i :: 0 <= i < |g| && Done(g0, g, i) ==> r[i] == r0[Source(g0, i) - 1])
    && (forall i :: 0 <= i < |g| && !Done(g0, g, i) ==> r[i] == r0[i])
    && (forall i :: 0 <= i < |g| && Source(g, i) != 0 ==> !Done(g0, g, Source(g, i) - 1))
  }

  lemma DoneAt(g0: Graph, g: Graph, r0: seq<Word>, r: seq<Word>, i: nat)
    requires Square(g0) && Square(g) && |g| == |g0| && Progress(g0, g, r0, r) && i < |g|
    ensures r[i] == if Source(g, i) == 0 && Source(g0, i) != 0 then r0[Source(g0, i) - 1] else r0[i]
  {
    hide ZeroRow, Kept;
  }

  /** A row still to do names a register that is not done. */
  lemma PendingAt(g0: Graph, g: Graph, r0: seq<Word>, r: seq<Word>, i: nat)
    requires Square(g0) && Square(g) && |g| == |g0| && Progress(g0, g, r0, r) && i < |g| && Source(g, i) != 0
    ensures var v := Source(g, i); !(Source(g, v - 1) == 0 && Source(g0, v - 1) != 0) && r[v - 1] == r0[v - 1]
  {
    hide Source;
    assert !Done(g0, g, Source(g, i) - 1);
    DoneAt(g0, g, r0, r, Source(g, i) - 1);
  }

  lemma NotDemanded(g: Graph, i: nat, j: nat)
    requires SingleSource(g) && i < |g| && j < |g| && j != i && ZeroCol(g, i)
    ensures Source(g, j) != i + 1
  {
    SourceIs(g, j, i);
  }

  lemma ResolveStep(g0: Graph, g: Graph, r0: seq<Word>, r: seq<Word>, i: nat)
    requires SingleSource(g) && Square(g0) && |g| == |g0| && Progress(g0, g, r0, r)
    requires i < |g| && Source(g, i) != 0 && Source(g, i) != i + 1 && ZeroCol(g, i)
    ensures var v := Source(g, i);
            SingleSource(Clear(g, i, v - 1)) && Progress(g0, Clear(g, i, v - 1), r0, r[i := r[v - 1]])
  {
    hide Source, SingleSource, ZeroCol, Clear, Kept, Progress;
    SourceShape(g);
    var v := Source(g, i);
    var h := Clear(g, i, v - 1);
    ProgressShape(g0, g, r0, r);
    ClearKeeps(g0, g, i);
    SourceShape(h);
    KeptRow(g0, g, i);
    PendingAt(g0, g, r0, r, i);
    var q := r[i := r[v - 1]];
    forall j | 0 <= j < |h|
      ensures Done(g0, h, j) ==> q[j] == r0[Source(g0, j) - 1]
      ensures !Done(g0, h, j) ==> q[j] == r0[j]
      ensures Source(h, j) != 0 ==> !(Source(h, Source(h, j) - 1) == 0 && Source(g0, Source(h, j) - 1) != 0)
    {
      DoneAt(g0, g, r0, r, j);
      if Source(h, j) != 0 {
        NotDemanded(g, i, j);
        PendingAt(g0, g, r0, r, j);
      }
    }
    ProgressFrom(g0, h, r0, q);
  }

  lemma ProgressFrom(g0: Graph, g: Graph, r0: seq<Word>, r: seq<Word>)
    requires Square(g0) && Square(g) && |g| == |g0| && |r0| == |g0| && |r| == |g0| && Kept(g0, g)
    requires forall i :: 0 <= i < |g| && Done(g0, g, i) ==> r[i] == r0[Source(g0, i) - 1]
    requires forall i :: 0 <= i < |g| && !Done(g0, g, i) ==> r[i] == r0[i]
    requires forall i :: 0 <= i < |g| && Source(g, i) != 0 ==> !(Source(g, Source(g, i) - 1) == 0 && Source(g0, Source(g, i) - 1) != 0)
    ensures Progress(g0, g, r0, r)
  {
    hide ZeroRow, Kept;
  }

  lemma KeptRow(g0: Graph, g: Graph, i: nat)
    requires Square(g0) && Square(g) && |g| == |g0| && Kept(g0, g) && i < |g| && Source(g, i) != 0
    ensures Source(g0, i) == Source(g, i)
  {
    SameRows(g0, g);
  }

  lemma {:induction false} ScanRight(g0: Graph, g: Graph, k: nat, r0: seq<Word>, r: seq<Word>, stack: int -> Word)
    requires SingleSource(g) && Square(g0) && |g| == |g0| && Progress(g0, g, r0, r) && k <= |g|
    requires forall i :: 0 <= i < |g| ==> Source(g0, i) != i + 1
    ensures SingleSource(ScanTo(g, k).g) && Progress(g0, ScanTo(g, k).g, r0, RunMoves(ScanTo(g, k).moves, r, stack))
  {
    hide Source, SingleSource, ZeroCol, MoveStep, Clear, Done, RunMoves, Progress, Kept;
    SourceShape(g);
    if k > 0 {
      ScanRight(g0, g, k - 1, r0, r, stack);
      ScanRows(g, k - 1);
      var s := ScanTo(g, k - 1);
      SourceShape(s.g);
      ProgressShape(g0, s.g, r0, RunMoves(s.moves, r, stack));
      if Source(s.g, k - 1) != 0 && ZeroCol(s.g, k - 1) {
        KeptRow(g0, s.g, k - 1);
        ResolveStep(g0, s.g, r0, RunMoves(s.moves, r, stack), k - 1);
        RunConcat(s.moves, [MoveFor(s.g, k - 1, Source(s.g, k - 1) - 1)], r, stack);
        OneMove(MoveFor(s.g, k - 1, Source(s.g, k - 1) - 1), RunMoves(s.moves, r, stack), stack);
      }
    } else {
      assert RunMoves([], r, stack) == r by { NoMoves(r, stack); }
    }
  }

  lemma NoMoves(r: seq<Word>, stack: int -> Word)
    ensures RunMoves([], r, stack) == r
  {
  }

  lemma ProgressShape(g0: Graph, g: Graph, r0: seq<Word>, r: seq<Word>)
    requires Square(g0) && Square(g) && |g| == |g0| && Progress(g0, g, r0, r)
    ensures |r0| == |g0| && |r| == |g0| && Kept(g0, g)
  {
  }

  lemma AllDone(g0: Graph, g: Graph, r0: seq<Word>, r: seq<Word>)
    requires Square(g0) && Square(g) && |g| == |g0| && Progress(g0, g, r0, r)
    requires forall i :: 0 <= i < |g| ==> Source(g, i) == 0
    ensures r == Parallel(g0, r0)
  {
    hide Progress, Kept, ZeroRow;
    ProgressShape(g0, g, r0, r);
    forall i | 0 <= i < |g|
      ensures r[i] == Parallel(g0, r0)[i]
    {
      DoneAt(g0, g, r0, r, i);
    }
  }

  lemma OneMove(m: ArgMove, r: seq<Word>, stack: int -> Word)
    ensures RunMoves([m], r, stack) == MoveStep(r, stack, m)
    ensures m.FromReg? && m.dst < |r| && m.src < |r| ==> MoveStep(r, stack, m) == r[m.dst := r[m.src]]
  {
    assert [m][..0] == [];
  }

  /** Of the rows with a source, one of least rank. */
  lemma {:induction false} LeastRank(g: Graph, rk: seq<nat>, k: nat) returns (m: nat)
    requires Square(g) && |rk| == |g| && k <= |g| && exists i :: 0 <= i < k && Source(g, i) != 0
    ensures m < k && Source(g, m) != 0 && forall i :: 0 <= i < k && Source(g, i) != 0 ==> rk[m] <= rk[i]
    decreases k
  {
    hide Source;
    if exists i :: 0 <= i < k - 1 && Source(g, i) != 0 {
      m := LeastRank(g, rk, k - 1);
      if Source(g, k - 1) != 0 && rk[k - 1] < rk[m] {
        m := k - 1;
      }
    } else {
      m := k - 1;
    }
  }

  /** A row with a source that nobody needs is resolved in the pass that visits it. */
  lemma {:induction false} FreeResolves(g: Graph, m: nat, k: nat)
    requires SingleSource(g) && m < k <= |g| && Source(g, m) != 0 && ZeroCol(g, m)
    ensures ScanTo(g, k).resolved > 0
    decreases k
  {
    ScanRows(g, k - 1);
    if k - 1 == m {
      var s := ScanTo(g, m);
      assert s.g[m] == g[m];
      forall i | 0 <= i < |g| && i != m
        ensures s.g[i][m] == 0
      {
        SourceIs(s.g, i, m);
      }
    } else {
      FreeResolves(g, m, k - 1);
    }
  }

  lemma AcyclicResolves(g: Graph)
    requires SingleSource(g) && Acyclic(g) && ScanTo(g, |g|).unresolved > 0
    ensures ScanTo(g, |g|).resolved > 0
  {
    var rk :| RankedBy(g, rk);
    ScanRows(g, |g|);
    ScanProgress(g, |g|);
    if ScanTo(g, |g|).resolved == 0 {
      var m := LeastRank(g, rk, |g|);
      forall i | 0 <= i < |g| && i != m
        ensures g[i][m] == 0
      {
        SourceIs(g, i, m);
      }
      FreeResolves(g, m, |g|);
    }
  }

  lemma AcyclicFewer(g: Graph, h: Graph)
    requires Square(g) && Square(h) && |h| == |g| && Kept(g, h) && Acyclic(g)
    ensures Acyclic(h)
  {
    var rk :| RankedBy(g, rk);
    SameRows(g, h);
    assert RankedBy(h, rk);
  }

  lemma {:induction false} MovesRight(g0: Graph, g: Graph, sp: int, r0: seq<Word>, r: seq<Word>, stack: int -> Word)
    requires SingleSource(g) && Square(g0) && |g| == |g0| && Progress(g0, g, r0, r) && Acyclic(g)
    requires |r0| == |g0| && forall i :: 0 <= i < |g| ==> Source(g0, i) != i + 1
    ensures RunMoves(Rounds(g, sp), r, stack) == Parallel(g0, r0)
    decreases OffDiagonal(g, |g|), Edges(g, |g|)
  {
    hide Source, SingleSource, ScanTo, Acyclic, RunMoves, Progress;
    RoundDrops(g, sp - 4);
    SourceShape(g);
    var s := ScanTo(g, |g|);
    var r1 := RunMoves(s.moves, r, stack);
    ScanRight(g0, g, |g|, r0, r, stack);
    ScanRows(g, |g|);
    if s.unresolved > 0 {
      AcyclicResolves(g);
      AcyclicFewer(g, s.g);
      MovesRight(g0, s.g, sp, r0, r1, stack);
      RunConcat(s.moves, Rounds(s.g, sp), r, stack);
    } else {
      AllDone(g0, s.g, r0, r1);
    }
  }

  /** Acyclic graphs with one source for each register: the moves are the parallel assignment. */
  lemma AcyclicParallel(g: Graph, sp: int, r: seq<Word>, stack: int -> Word)
    requires SingleSource(g) && Acyclic(g) && |r| == |g|
    ensures RunMoves(Rounds(g, sp), r, stack) == Parallel(g, r)
  {
    NoLoops(g);
    MovesRight(g, g, sp, r, r, stack);
  }

  lemma NoLoops(g: Graph)
    requires Square(g) && Acyclic(g)
    ensures forall i :: 0 <= i < |g| ==> Source(g, i) != i + 1
  {
    hide Source;
    var rk :| RankedBy(g, rk);
    forall i | 0 <= i < |g|
      ensures Source(g, i) != i + 1
    {
      assert Source(g, i) != 0 ==> rk[i] < rk[Source(g, i) - 1];
    }
  }

  // ----- graphs that are not: some state shows it -----

  predicate NoStack(ms: seq<ArgMove>) {
    forall k :: 0 <= k < |ms| ==> ms[k].FromReg?
  }

  /** Enough of the stack offset left that its low eight bits are not zero. */
  predicate Deep(g: Graph, sp: int)
    requires Square(g)
  {
    sp <= -4 && sp - 4 * OffDiagonal(g, |g|) > -0x100
  }

  /** Undoing one resolution keeps a ranking: the row resolved first ranks below everything. */
  lemma UnclearAcyclic(g: Graph, i: nat)
    requires SingleSource(g) && i < |g| && Source(g, i) != 0 && Source(g, i) != i + 1 && ZeroCol(g, i)
    requires Acyclic(Clear(g, i, Source(g, i) - 1))
    ensures Acyclic(g)
  {
    hide Source, SingleSource, ZeroCol, Clear;
    SourceShape(g);
    var h := Clear(g, i, Source(g, i) - 1);
    ClearKeeps(g, g, i);
    SourceShape(h);
    var rk :| RankedBy(h, rk);
    var up := seq(|g|, j requires 0 <= j < |g| => if j == i then 0 else rk[j] + 1);
    forall j | 0 <= j < |g| && Source(g, j) != 0
      ensures up[j] < up[Source(g, j) - 1]
    {
      if j != i {
        NotDemanded(g, i, j);
        assert Source(h, j) == Source(g, j);
      }
    }
    assert RankedBy(g, up);
  }

  lemma {:induction false} ScanAcyclic(g: Graph, k: nat)
    requires SingleSource(g) && k <= |g| && NoStack(ScanTo(g, k).moves) && Acyclic(ScanTo(g, k).g)
    ensures Acyclic(g)
    decreases k
  {
    hide Source, SingleSource, ZeroCol, Clear, Acyclic, ScanTo, NoStack;
    SourceShape(g);
    if k == 0 {
      ScanStarts(g);
    } else {
      ScanRows(g, k - 1);
      ScanVisits(g, k - 1);
      var s := ScanTo(g, k - 1);
      SourceShape(s.g);
      NoStackParts(s.moves, RowMoves(s.g, k - 1));
      if RowMoves(s.g, k - 1) != [] {
        NoStackOne(MoveFor(s.g, k - 1, Source(s.g, k - 1) - 1));
        UnclearAcyclic(s.g, k - 1);
      }
      ScanAcyclic(g, k - 1);
    }
  }

  lemma NoStackOne(m: ArgMove)
    ensures NoStack([m]) <==> m.FromReg?
  {
    assert [m][0] == m;
  }

  /** A row that is its own source is resolved from the stack, or not in this pass. */
  lemma {:induction false} ScanLoop(g: Graph, k: nat, i: nat)
    requires SingleSource(g) && k <= |g| && i < |g| && Source(g, i) == i + 1 && NoStack(ScanTo(g, k).moves)
    ensures ScanTo(g, k).g[i] == g[i] && Source(ScanTo(g, k).g, i) == i + 1
    decreases k
  {
    hide Source, SingleSource, ZeroCol, Clear, ScanTo, NoStack;
    SourceShape(g);
    if k == 0 {
      ScanStarts(g);
    } else {
      ScanRows(g, k - 1);
      ScanVisits(g, k - 1);
      var s := ScanTo(g, k - 1);
      SourceShape(s.g);
      NoStackParts(s.moves, RowMoves(s.g, k - 1));
      ScanLoop(g, k - 1, i);
      if RowMoves(s.g, k - 1) != [] {
        NoStackOne(MoveFor(s.g, k - 1, Source(s.g, k - 1) - 1));
        ClearKeeps(g, s.g, k - 1);
      }
    }
  }

  lemma NoStackParts(a: seq<ArgMove>, b: seq<ArgMove>)
    requires NoStack(a + b)
    ensures NoStack(a) && NoStack(b)
  {
    assert forall k :: 0 <= k < |a| ==> (a + b)[k] == a[k];
    assert forall k :: 0 <= k < |b| ==> (a + b)[|a| + k] == b[k];
  }

  /** So while one is left, the moves are not all from registers. */
  lemma {:induction false} LoopNeedsStack(g: Graph, sp: int, i: nat)
    requires SingleSource(g) && i < |g| && Source(g, i) == i + 1 && Deep(g, sp)
    ensures !NoStack(Rounds(g, sp))
    decreases OffDiagonal(g, |g|), Edges(g, |g|)
  {
    hide Source, SingleSource, ScanTo, Broken, NoStack;
    SourceShape(g);
    RoundDrops(g, sp - 4);
    var s := ScanTo(g, |g|);
    ScanRows(g, |g|);
    if NoStack(Rounds(g, sp)) {
      if s.unresolved > 0 {
        NoStackParts(s.moves, if s.resolved == 0 then Rounds(Broken(s.g, s.unresolved, sp - 4), sp - 4) else Rounds(s.g, sp));
      }
      ScanLoop(g, |g|, i);
      if s.unresolved == 0 {
        assert false;
      } else if s.resolved == 0 {
        var h := Broken(s.g, s.unresolved, sp - 4);
        BrokenRow(s.g, s.unresolved, sp - 4, i);
        DeepEnough(g, sp);
        LoopNeedsStack(h, sp - 4, i);
      } else {
        LoopNeedsStack(s.g, sp, i);
      }
    }
  }

  lemma DeepEnough(g: Graph, sp: int)
    requires Square(g) && Deep(g, sp) && OffDiagonal(g, |g|) > 0
    ensures (sp - 4) % 0x100 != 0
  {
    hide OffDiagonal;
    assert -0x100 < sp - 4 < 0;
    assert (sp - 4) % 0x100 == sp - 4 + 0x100;
  }

  /** Moves from registers only come from an acyclic graph. */
  lemma {:induction false} NoStackAcyclic(g: Graph, sp: int)
    requires SingleSource(g) && Deep(g, sp) && NoStack(Rounds(g, sp))
    ensures Acyclic(g)
    decreases OffDiagonal(g, |g|), Edges(g, |g|)
  {
    hide Source, SingleSource, ScanTo, Broken, NoStack, Acyclic;
    SourceShape(g);
    RoundDrops(g, sp - 4);
    var s := ScanTo(g, |g|);
    ScanRows(g, |g|);
    if s.unresolved == 0 {
      NoEdgesAcyclic(s.g);
      ScanAcyclic(g, |g|);
    } else if s.resolved == 0 {
      var u := s.unresolved;
      var h := Broken(s.g, u, sp - 4);
      NoStackParts(s.moves, Rounds(h, sp - 4));
      ScanProgress(g, |g|);
      var i := Demander(g, u);
      BrokenRow(g, u, sp - 4, i);
      DeepEnough(g, sp);
      LoopNeedsStack(h, sp - 4, i);
      assert false;
    } else {
      NoStackParts(s.moves, Rounds(s.g, sp));
      NoStackAcyclic(s.g, sp);
      ScanAcyclic(g, |g|);
    }
  }

  lemma Demander(g: Graph, u: nat) returns (i: nat)
    requires SingleSource(g) && 0 < u <= |g| && !ZeroCol(g, u - 1)
    ensures i < |g| && i != u - 1 && Source(g, i) == u
  {
    i :| 0 <= i < |g| && i != u - 1 && g[i][u - 1] != 0;
    SourceIs(g, i, u - 1);
  }

  lemma NoEdgesAcyclic(g: Graph)
    requires Square(g) && forall i :: 0 <= i < |g| ==> Source(g, i) == 0
    ensures Acyclic(g)
  {
    assert RankedBy(g, seq(|g|, _ => 0));
  }

  /** Each register is moved to at most once, and only if it has a source. */
  predicate DstsIn(ms: seq<ArgMove>, g: Graph)
    requires Square(g)
  {
    && (forall k :: 0 <= k < |ms| ==> ms[k].dst < |g| && Source(g, ms[k].dst) != 0)
    && (forall j, k :: 0 <= j < k < |ms| ==> ms[j].dst != ms[k].dst)
  }

  lemma {:induction false} ScanDsts(g: Graph, k: nat)
    requires SingleSource(g) && k <= |g|
    ensures var s := ScanTo(g, k);
            DstsIn(s.moves, g) && forall j :: 0 <= j < |s.moves| ==> s.moves[j].dst < k && Source(s.g, s.moves[j].dst) == 0
  {
    hide Source, SingleSource, ZeroCol, Clear, ScanTo, Kept;
    SourceShape(g);
    if k == 0 {
      ScanStarts(g);
    } else {
      ScanDsts(g, k - 1);
      ScanRows(g, k - 1);
      ScanVisits(g, k - 1);
      var s := ScanTo(g, k - 1);
      SourceShape(s.g);
      SameRows(g, s.g);
      if Source(s.g, k - 1) != 0 {
        ClearKeeps(g, s.g, k - 1);
      }
    }
  }

  lemma {:induction false} MovesDsts(g: Graph, sp: int)
    requires SingleSource(g)
    ensures DstsIn(Rounds(g, sp), g)
    decreases OffDiagonal(g, |g|), Edges(g, |g|)
  {
    hide Source, SingleSource, ScanTo, Broken;
    SourceShape(g);
    RoundDrops(g, sp - 4);
    var s := ScanTo(g, |g|);
    ScanRows(g, |g|);
    ScanDsts(g, |g|);
    SameRows(g, s.g);
    if s.unresolved > 0 {
      var h := if s.resolved == 0 then Broken(s.g, s.unresolved, sp - 4) else s.g;
      var sp' := if s.resolved == 0 then sp - 4 else sp;
      MovesDsts(h, sp');
      forall j | 0 <= j < |g| && Source(h, j) != 0
        ensures Source(s.g, j) != 0 && Source(g, j) != 0
      {
        if s.resolved == 0 {
          BrokenRow(s.g, s.unresolved, sp - 4, j);
        }
      }
    }
  }

  lemma {:induction false} LastWrite(ms: seq<ArgMove>, p: nat, r: seq<Word>, stack: int -> Word)
    requires p < |ms| && ms[p].FromStack? && ms[p].dst < |r|
    requires forall k :: p < k < |ms| ==> ms[k].dst != ms[p].dst
    ensures RunMoves(ms, r, stack)[ms[p].dst] == stack(ms[p].off)
    decreases |ms|
  {
    if p < |ms| - 1 {
      LastWrite(ms[..|ms| - 1], p, r, stack);
    }
  }

  /** The emitted moves do the parallel assignment in every state. */
  ghost predicate AlwaysParallel(g: Graph, sp: int)
    requires SingleSource(g)
  {
    forall r: seq<Word>, stack: int -> Word {:trigger RunMoves(Rounds(g, sp), r, stack)} ::
      |r| == |g| ==> RunMoves(Rounds(g, sp), r, stack) == Parallel(g, r)
  }

  /**
   The argument moves are right in every state exactly when the graph is acyclic, loops
   counting as cycles: a broken cycle reads a stack slot that nothing stored.
   */
  lemma ParallelIff(g: Graph, sp: int)
    requires SingleSource(g) && Deep(g, sp)
    ensures AlwaysParallel(g, sp) <==> Acyclic(g)
  {
    hide Source, SingleSource, Acyclic, Rounds, RunMoves, Deep;
    SourceShape(g);
    if Acyclic(g) {
      forall r: seq<Word>, stack: int -> Word | |r| == |g|
        ensures RunMoves(Rounds(g, sp), r, stack) == Parallel(g, r)
      {
        AcyclicParallel(g, sp, r, stack);
      }
    } else {
      if NoStack(Rounds(g, sp)) {
        NoStackAcyclic(g, sp);
      }
      MovesDsts(g, sp);
      var ms := Rounds(g, sp);
      var p :| 0 <= p < |ms| && ms[p].FromStack?;
      var zeros: seq<Word> := seq(|g|, _ => 0);
      var ones: int -> Word := _ => 1;
      LastWrite(ms, p, zeros, ones);
      assert Parallel(g, zeros)[ms[p].dst] == 0;
      assert RunMoves(Rounds(g, sp), zeros, ones) != Parallel(g, zeros);
    }
  }

  lemma {:induction false} OffDiagonalBound(g: Graph, k: nat)
    requires Square(g) && k <= |g|
    ensures OffDiagonal(g, k) <= k
  {
    if k > 0 {
      OffDiagonalBound(g, k - 1);
    }
  }

  /** With as many registers as a machine has from the first argument up, that is the whole story. */
  lemma AssignRightIff(g: Graph)
    requires SingleSource(g) && |g| <= 28
    ensures AlwaysParallel(g, -4) <==> Acyclic(g)
  {
    OffDiagonalBound(g, |g|);
    ParallelIff(g, -4);
  }

  // ----- two registers exchanged -----

  const SWAP: Graph := [[0, 1], [1, 0]]
  const SWAP_BROKEN: Graph := [[248, 0], [1, 0]]
  const SWAP_LAST: Graph := [[248, 0], [0, 0]]
  const SWAP_NONE: Graph := [[0, 0], [0, 0]]

  lemma SwapRows()
    ensures Square(SWAP) && Source(SWAP, 0) == 2 && Source(SWAP, 1) == 1 && !ZeroCol(SWAP, 0) && !ZeroCol(SWAP, 1)
    ensures Square(SWAP_BROKEN) && Source(SWAP_BROKEN, 0) == 1 && Source(SWAP_BROKEN, 1) == 1 && !ZeroCol(SWAP_BROKEN, 0) && ZeroCol(SWAP_BROKEN, 1)
    ensures Square(SWAP_LAST) && Source(SWAP_LAST, 0) == 1 && Source(SWAP_LAST, 1) == 0 && ZeroCol(SWAP_LAST, 0)
    ensures Clear(SWAP_BROKEN, 1, 0) == SWAP_LAST && Clear(SWAP_LAST, 0, 0) == SWAP_NONE && Square(SWAP_NONE) && Source(SWAP_NONE, 1) == 0
  {
    assert SWAP[0][1] == 1 && SWAP[1][0] == 1;
    assert SWAP_BROKEN[1][0 := 0] == SWAP_LAST[1];
    assert SWAP_LAST[0][0 := 0] == SWAP_NONE[0];
  }

  lemma SwapBreaks()
    ensures Square(SWAP) && Broken(SWAP, 2, -8) == SWAP_BROKEN
  {
    SwapRows();
    var h := Broken(SWAP, 2, -8);
    assert h[0] == SWAP[0][1 := 0][0 := 248] == SWAP_BROKEN[0];
    assert h[1] == SWAP[1];
  }

  /** A row that moves nothing, and the one that does. */
  lemma SwapMoves()
    ensures Square(SWAP) && RowMoves(SWAP, 0) == [] && RowMoves(SWAP, 1) == []
    ensures Square(SWAP_BROKEN) && RowMoves(SWAP_BROKEN, 0) == [] && RowMoves(SWAP_BROKEN, 1) == [FromReg(1, 0)]
    ensures Square(SWAP_LAST) && RowMoves(SWAP_LAST, 0) == [FromStack(0, 248)]
    ensures Square(SWAP_NONE) && RowMoves(SWAP_NONE, 1) == []
  {
    hide Source, ZeroCol;
    SwapRows();
  }

  lemma SwapScans()
    ensures Square(SWAP) && ScanTo(SWAP, 2) == Scan(SWAP, [], 2, 0)
    ensures Square(SWAP_BROKEN) && ScanTo(SWAP_BROKEN, 2) == Scan(SWAP_LAST, [FromReg(1, 0)], 1, 1)
    ensures Square(SWAP_LAST) && ScanTo(SWAP_LAST, 2) == Scan(SWAP_NONE, [FromStack(0, 248)], 0, 1)
  {
    hide Source, ZeroCol, Clear, ScanTo, RowMoves;
    SwapRows();
    SwapMoves();
    ScanStarts(SWAP);
    ScanVisits(SWAP, 0);
    ScanVisits(SWAP, 1);
    ScanStarts(SWAP_BROKEN);
    ScanVisits(SWAP_BROKEN, 0);
    ScanVisits(SWAP_BROKEN, 1);
    ScanStarts(SWAP_LAST);
    ScanVisits(SWAP_LAST, 0);
    ScanVisits(SWAP_LAST, 1);
  }

  lemma SwapSources()
    ensures SingleSource(SWAP) && SingleSource(SWAP_BROKEN) && SingleSource(SWAP_LAST)
  {
  }

  /**
   The input that fails: two argument registers to be exchanged. The second gets the first, and
   the first the word 248 bytes above sp, where minus eight was meant and nothing was stored.
   */
  lemma SwapLost()
    ensures SingleSource(SWAP) && Rounds(SWAP, -4) == [FromReg(1, 0), FromStack(0, 248)]
  {
    hide ScanTo, Broken, SingleSource;
    SwapSources();
    SwapScans();
    SwapBreaks();
    assert Rounds(SWAP_LAST, -8) == [FromStack(0, 248)];
    assert Rounds(SWAP_BROKEN, -8) == [FromReg(1, 0)] + Rounds(SWAP_LAST, -8);
    assert Rounds(SWAP, -4) == [] + Rounds(SWAP_BROKEN, -8);
  }
}
