/**
 Resolving argument registers that depend on each other. A graph row says which argument
 register an argument comes from; the moves are what assign_arg_regs emits, in order, with
 its treatment of cycles. They do the parallel assignment exactly when there is no cycle.
 */
module ArgMoves {
  import opened Words

  /** Entry j of row i is not zero when argument i comes from argument register j. */
  type Graph = seq<seq<nat>>

  datatype ArgMove = FromReg(dst: nat, src: nat) | FromStack(dst: nat, off: nat)

  predicate Square(g: Graph) {
    forall i :: 0 <= i < |g| ==> |g[i]| == |g|
  }

  /** At most one source in each row. */
  predicate SingleSource(g: Graph) {
    && Square(g)
    && forall i, j, k :: 0 <= i < |g| && 0 <= j < |g| && 0 <= k < |g| && g[i][j] != 0 && g[i][k] != 0 ==> j == k
  }

  /** zerorow: one more than the first column set, or zero. */
  function ZeroRow(row: seq<nat>, j: nat): (v: nat)
    requires j <= |row|
    ensures v == 0 <==> forall k :: j <= k < |row| ==> row[k] == 0
    ensures v != 0 ==> j < v <= |row| && row[v - 1] != 0 && forall k :: j <= k < v - 1 ==> row[k] == 0
    decreases |row| - j
  {
    if j == |row| then 0 else if row[j] != 0 then j + 1 else ZeroRow(row, j + 1)
  }

  /** Source of row i, counted from one; zero for none. */
  function Source(g: Graph, i: nat): (v: nat)
    requires Square(g) && i < |g|
    ensures v <= |g|
  {
    ZeroRow(g[i], 0)
  }

  /** zerocol: no other row depends on c. */
  predicate ZeroCol(g: Graph, c: nat)
    requires Square(g) && c < |g|
  {
    forall i :: 0 <= i < |g| && i != c ==> g[i][c] == 0
  }

  function Clear(g: Graph, i: nat, j: nat): Graph
    requires Square(g) && i < |g| && j < |g|
  {
    g[i := g[i][j := 0]]
  }

  function MoveFor(g: Graph, i: nat, v: nat): ArgMove
    requires Square(g) && i < |g|
  {
    if v == i then FromStack(i, g[i][i]) else FromReg(i, v)
  }

  datatype Scan = Scan(g: Graph, moves: seq<ArgMove>, unresolved: nat, resolved: nat)

  /** One pass over rows 0 up to k. */
  function ScanTo(g: Graph, k: nat): (s: Scan)
    requires Square(g) && k <= |g|
    ensures Square(s.g) && |s.g| == |g| && s.unresolved <= k
  {
    if k == 0 then Scan(g, [], 0, 0)
    else
      var s := ScanTo(g, k - 1);
      var v := Source(s.g, k - 1);
      if v == 0 then s
      else if ZeroCol(s.g, k - 1) then
        Scan(Clear(s.g, k - 1, v - 1), s.moves + [MoveFor(s.g, k - 1, v - 1)], s.unresolved, s.resolved + 1)
      else s.(unresolved := k)
  }

  /** The move that visiting row i of h emits, if any. */
  function RowMoves(h: Graph, i: nat): seq<ArgMove>
    requires Square(h) && i < |h|
  {
    if Source(h, i) != 0 && ZeroCol(h, i) then [MoveFor(h, i, Source(h, i) - 1)] else []
  }

  lemma ScanVisits(g: Graph, i: nat)
    requires Square(g) && i < |g|
    ensures var s, s' := ScanTo(g, i), ScanTo(g, i + 1);
            var v := Source(s.g, i);
            && s'.moves == s.moves + RowMoves(s.g, i)
            && s'.g == (if RowMoves(s.g, i) != [] then Clear(s.g, i, v - 1) else s.g)
            && s'.resolved == s.resolved + |RowMoves(s.g, i)| && |RowMoves(s.g, i)| <= 1
            && s'.unresolved == (if v != 0 && RowMoves(s.g, i) == [] then i + 1 else s.unresolved)
  {
    hide Source, ZeroCol, Clear, Square;
  }

  lemma ScanStarts(g: Graph)
    requires Square(g)
    ensures ScanTo(g, 0) == Scan(g, [], 0, 0)
  {
  }

  /** resolv_cycle: rows whose source is v get a stack offset on the diagonal, kept in eight bits. */
  function Broken(g: Graph, v: nat, sp: int): (h: Graph)
    requires Square(g) && 0 < v <= |g|
    ensures Square(h) && |h| == |g|
  {
    seq(|g|, i requires 0 <= i < |g| => if Source(g, i) == v then g[i][v - 1 := 0][i := sp % 0x100] else g[i])
  }

  /** Rows whose source is another register, among the first k. */
  function OffDiagonal(g: Graph, k: nat): nat
    requires Square(g) && k <= |g|
  {
    if k == 0 then 0
    else OffDiagonal(g, k - 1) + if Source(g, k - 1) != 0 && Source(g, k - 1) != k then 1 else 0
  }

  /** Rows with a source, among the first k. */
  function Edges(g: Graph, k: nat): nat
    requires Square(g) && k <= |g|
  {
    if k == 0 then 0 else Edges(g, k - 1) + if Source(g, k - 1) != 0 then 1 else 0
  }

  // ----- rows under the operations -----

  lemma SourceIs(g: Graph, i: nat, j: nat)
    requires SingleSource(g) && i < |g| && j < |g|
    ensures g[i][j] != 0 <==> Source(g, i) == j + 1
  {
  }

  lemma ClearRow(g: Graph, i: nat, v: nat, j: nat)
    requires SingleSource(g) && i < |g| && j < |g| && v > 0 && Source(g, i) == v
    ensures SingleSource(Clear(g, i, v - 1)) && |Clear(g, i, v - 1)| == |g|
    ensures Source(Clear(g, i, v - 1), j) == if j == i then 0 else Source(g, j)
    ensures j != i ==> Clear(g, i, v - 1)[j] == g[j]
  {
    var h := Clear(g, i, v - 1);
    forall a, b, c | 0 <= a < |h| && 0 <= b < |h| && 0 <= c < |h| && h[a][b] != 0 && h[a][c] != 0
      ensures b == c
    {
      assert g[a][b] != 0 && g[a][c] != 0;
    }
    if j == i {
      forall k | 0 <= k < |g|
        ensures h[i][k] == 0
      {
        if k != v - 1 {
          assert g[i][v - 1] != 0;
        }
      }
    }
  }

  lemma BrokenRow(g: Graph, v: nat, sp: int, j: nat)
    requires SingleSource(g) && 0 < v <= |g| && j < |g|
    ensures SingleSource(Broken(g, v, sp))
    ensures Source(g, j) != v ==> Broken(g, v, sp)[j] == g[j] && Source(Broken(g, v, sp), j) == Source(g, j)
    ensures Source(g, j) == v ==> Source(Broken(g, v, sp), j) == (if sp % 0x100 == 0 then 0 else j + 1) && Broken(g, v, sp)[j][j] == sp % 0x100
  {
    var h := Broken(g, v, sp);
    forall a | 0 <= a < |g| && Source(g, a) == v
      ensures forall k :: 0 <= k < |g| && k != a ==> h[a][k] == 0
    {
      forall k | 0 <= k < |g| && k != a
        ensures h[a][k] == 0
      {
        SourceIs(g, a, k);
      }
    }
    forall a, b, c | 0 <= a < |h| && 0 <= b < |h| && 0 <= c < |h| && h[a][b] != 0 && h[a][c] != 0
      ensures b == c
    {
      if Source(g, a) != v {
        assert h[a] == g[a];
      }
    }
    if Source(g, j) == v {
      SourceIs(h, j, j);
      if sp % 0x100 == 0 {
        assert forall k :: 0 <= k < |g| ==> h[j][k] == 0;
      }
    }
  }

  /** Row by row, h counts no more than g, and less if some row counts less. */
  lemma {:induction false} CountsDrop(g: Graph, h: Graph, k: nat, i: nat)
    requires Square(g) && Square(h) && |h| == |g| && k <= |g|
    requires forall j :: 0 <= j < k ==> Source(h, j) == 0 || Source(h, j) == Source(g, j)
    ensures OffDiagonal(h, k) <= OffDiagonal(g, k) && Edges(h, k) <= Edges(g, k)
    ensures i < k && Source(g, i) != 0 && Source(h, i) == 0 ==> Edges(h, k) < Edges(g, k)
  {
    if k > 0 {
      CountsDrop(g, h, k - 1, i);
    }
  }

  lemma {:induction false} BrokenDrops(g: Graph, h: Graph, k: nat, i: nat)
    requires Square(g) && Square(h) && |h| == |g| && k <= |g|
    requires forall j :: 0 <= j < k ==> Source(h, j) == 0 || Source(h, j) == j + 1 || Source(h, j) == Source(g, j)
    ensures OffDiagonal(h, k) <= OffDiagonal(g, k)
    ensures i < k && Source(g, i) != 0 && Source(g, i) != i + 1 && (Source(h, i) == 0 || Source(h, i) == i + 1) ==> OffDiagonal(h, k) < OffDiagonal(g, k)
  {
    if k > 0 {
      BrokenDrops(g, h, k - 1, i);
    }
  }

  /** Rows of h are those of g, or have lost their source. */
  predicate Kept(g: Graph, h: Graph)
    requires Square(g) && Square(h) && |h| == |g|
  {
    forall j :: 0 <= j < |g| ==> h[j] == g[j] || Source(h, j) == 0
  }

  lemma ClearKeeps(g: Graph, h: Graph, i: nat)
    requires SingleSource(h) && Square(g) && |h| == |g| && i < |g| && Kept(g, h) && Source(h, i) != 0
    ensures var z := Clear(h, i, Source(h, i) - 1);
            && SingleSource(z) && |z| == |g| && Kept(g, z) && Source(z, i) == 0
            && (forall j :: 0 <= j < |g| && j != i ==> z[j] == h[j] && Source(z, j) == Source(h, j))
  {
    hide Source, SingleSource;
    SourceShape(h);
    var z := Clear(h, i, Source(h, i) - 1);
    ClearRow(h, i, Source(h, i), i);
    forall j | 0 <= j < |g| && j != i
      ensures z[j] == h[j] && Source(z, j) == Source(h, j)
    {
      ClearRow(h, i, Source(h, i), j);
    }
  }

  /** What a pass does to each row: visited rows may be cleared, and only while moves are emitted. */
  lemma {:induction false} ScanRows(g: Graph, k: nat)
    requires SingleSource(g) && k <= |g|
    ensures var s := ScanTo(g, k);
            && SingleSource(s.g) && Kept(g, s.g)
            && (forall j :: k <= j < |g| ==> s.g[j] == g[j])
            && (s.resolved == 0 ==> s.g == g && s.moves == [])
            && (s.unresolved == 0 ==> forall j :: 0 <= j < k ==> Source(s.g, j) == 0)
  {
    hide Source, SingleSource, ZeroCol;
    SourceShape(g);
    if k > 0 {
      ScanRows(g, k - 1);
      var s := ScanTo(g, k - 1);
      if Source(s.g, k - 1) != 0 {
        ClearKeeps(g, s.g, k - 1);
      }
    }
  }

  lemma SourceShape(g: Graph)
    requires SingleSource(g)
    ensures Square(g)
  {
  }

  lemma SameRows(g: Graph, h: Graph)
    requires Square(g) && Square(h) && |h| == |g| && Kept(g, h)
    ensures forall j :: 0 <= j < |g| ==> Source(h, j) == 0 || Source(h, j) == Source(g, j)
  {
  }

  /** A pass that resolves something clears a row; one that does not leaves a row in demand. */
  lemma {:induction false} ScanProgress(g: Graph, k: nat)
    requires SingleSource(g) && k <= |g|
    ensures var s := ScanTo(g, k);
            && (s.resolved > 0 ==> exists j :: 0 <= j < k && Source(g, j) != 0 && Source(s.g, j) == 0)
            && (s.unresolved > 0 && s.resolved == 0 ==> Source(g, s.unresolved - 1) != 0 && !ZeroCol(g, s.unresolved - 1))
  {
    hide Source, SingleSource, ZeroCol;
    SourceShape(g);
    if k > 0 {
      ScanProgress(g, k - 1);
      ScanRows(g, k - 1);
      var s := ScanTo(g, k - 1);
      SameRows(g, s.g);
      if Source(s.g, k - 1) != 0 {
        ClearKeeps(g, s.g, k - 1);
        if ZeroCol(s.g, k - 1) {
          assert Source(ScanTo(g, k).g, k - 1) == 0 && Source(g, k - 1) != 0;
        }
      }
    }
  }

  lemma CycleDrops(g: Graph, u: nat, sp: int)
    requires SingleSource(g) && 0 < u <= |g| && !ZeroCol(g, u - 1)
    ensures SingleSource(Broken(g, u, sp)) && OffDiagonal(Broken(g, u, sp), |g|) < OffDiagonal(g, |g|)
  {
    var h := Broken(g, u, sp);
    var i :| 0 <= i < |g| && i != u - 1 && g[i][u - 1] != 0;
    SourceIs(g, i, u - 1);
    hide Source, SingleSource, Broken;
    forall j | 0 <= j < |g|
      ensures Source(h, j) == 0 || Source(h, j) == j + 1 || Source(h, j) == Source(g, j)
    {
      BrokenRow(g, u, sp, j);
    }
    BrokenRow(g, u, sp, i);
    BrokenDrops(g, h, |g|, i);
  }

  /** The lexicographic measure of a round: it always goes down. */
  lemma RoundDrops(g: Graph, sp: int)
    requires SingleSource(g)
    ensures var s, n := ScanTo(g, |g|), |g|;
            && SingleSource(s.g) && |s.g| == n && OffDiagonal(s.g, n) <= OffDiagonal(g, n)
            && (s.resolved > 0 ==> Edges(s.g, n) < Edges(g, n))
            && (s.resolved == 0 && s.unresolved > 0 ==>
                  SingleSource(Broken(s.g, s.unresolved, sp)) && OffDiagonal(Broken(s.g, s.unresolved, sp), n) < OffDiagonal(g, n))
  {
    hide Source, SingleSource, ZeroCol, Broken, ScanTo;
    SourceShape(g);
    var s, n := ScanTo(g, |g|), |g|;
    ScanRows(g, n);
    ScanProgress(g, n);
    SourceShape(s.g);
    assert forall j :: 0 <= j < n ==> Source(s.g, j) == 0 || Source(s.g, j) == Source(g, j) by {
      SameRows(g, s.g);
    }
    CountsDrop(g, s.g, n, 0);
    if s.resolved > 0 {
      var j :| 0 <= j < n && Source(g, j) != 0 && Source(s.g, j) == 0;
      CountsDrop(g, s.g, n, j);
    } else if s.unresolved > 0 {
      CycleDrops(g, s.unresolved, sp);
    }
  }

  /** All rounds: pass until nothing is unresolved, breaking a cycle when a pass resolves nothing. */
  function Rounds(g: Graph, sp: int): seq<ArgMove>
    requires SingleSource(g)
    decreases OffDiagonal(g, |g|), Edges(g, |g|)
  {
    RoundDrops(g, sp - 4);
    var s := ScanTo(g, |g|);
    if s.unresolved == 0 then s.moves
    else if s.resolved == 0 then s.moves + Rounds(Broken(s.g, s.unresolved, sp - 4), sp - 4)
    else s.moves + Rounds(s.g, sp)
  }
}
