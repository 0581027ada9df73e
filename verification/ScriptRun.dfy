/**
 Running linked code by following its script: places are event indexes, so labels are places
 and a branch goes to the event that labels its destination.
 */
module ScriptRun {
  import opened Words
  import opened Mips
  import opened Script
  import opened Wrappers
  import opened BranchCode
  import opened Branch

  /** Script s can be linked, and every branch is near enough for its offset to fit its field. */
  ghost predicate Linkable(s: seq<Ev>) {
    Marked(s) && Resolvable(s) && Reachable(s)
  }

  /** Each branch is within reach of the event it is to land on. */
  ghost predicate Reachable(s: seq<Ev>) {
    forall k, dest, j :: 0 <= k < |s| && 0 <= j <= |s| && s[k] == MarkOf(dest) && IsTarget(s, k, dest, j) ==> InReach(Pos(s, k), Pos(s, j))
  }

  predicate Has(s: seq<Ev>, k: nat, frag: seq<Ev>) {
    k + |frag| <= |s| && s[k..k + |frag|] == frag
  }

  /** Event k can be jumped or fallen into: no mark waits for it. */
  predicate Clean(s: seq<Ev>, k: nat) {
    k <= |s| && (k > 0 ==> !IsMark(s[k - 1]))
  }

  ghost predicate Go(s: seq<Ev>, k: nat, x: Data, k': nat, y: Data)
    requires Linkable(s)
  {
    k <= |s| && k' <= |s| && Runs(Linked(s), Pos(s, k), x, Pos(s, k'), y)
  }

  lemma HasSplit(s: seq<Ev>, k: nat, a: seq<Ev>, b: seq<Ev>)
    requires Has(s, k, a + b)
    ensures Has(s, k, a) && Has(s, k + |a|, b)
  {
    var w := s[k..k + |a + b|];
    assert s[k..k + |a|] == w[..|a|] == a;
    assert s[k + |a|..k + |a| + |b|] == w[|a|..] == b;
  }

  lemma HasAt(s: seq<Ev>, k: nat, frag: seq<Ev>, i: nat)
    requires Has(s, k, frag) && i < |frag|
    ensures s[k + i] == frag[i]
  {
    assert s[k..k + |frag|][i] == frag[i];
  }

  lemma GoTrans(s: seq<Ev>, j: nat, x: Data, k: nat, y: Data, l: nat, z: Data)
    requires Linkable(s) && Go(s, j, x, k, y) && Go(s, k, y, l, z)
    ensures Go(s, j, x, l, z)
  {
    RunsTrans(Linked(s), Pos(s, j), x, Pos(s, k), y, Pos(s, l), z);
  }

  /** Passing a label takes no step. */
  lemma GoLabel(s: seq<Ev>, k: nat, x: Data)
    requires Linkable(s) && k < |s| && (s[k].LabelPc? || s[k].LabelLocal?)
    ensures Go(s, k, x, k + 1, x)
  {
    assert s[..k + 1][..k] == s[..k];
    RunsRefl(Linked(s), Pos(s, k), x);
  }

  lemma AtAppend(c: seq<Instr>, p: int, ws: seq<Instr>, i: Instr)
    requires At(c, p, ws) && p + |ws| < |c| && c[p + |ws|] == i
    ensures At(c, p, ws + [i])
  {
    assert c[p..p + |ws| + 1] == c[p..p + |ws|] + [c[p + |ws|]];
  }

  lemma PosBound(s: seq<Ev>, k: nat)
    requires k <= |s|
    ensures Pos(s, k) <= |Code(s)|
  {
    PosMonotone(s, k, |s|);
    assert s[..|s|] == s;
  }

  /** A stretch of words is found unpatched at its position in the linked code. */
  lemma {:induction false} WordsAt(s: seq<Ev>, k: nat, ws: seq<Instr>)
    requires Linkable(s) && Has(s, k, Emits(ws)) && Clean(s, k)
    ensures At(Linked(s), Pos(s, k), ws) && Pos(s, k + |ws|) == Pos(s, k) + |ws| && Clean(s, k + |ws|)
    decreases |ws|
  {
    hide Linked, Pos, Code, At, Marked, Resolvable;
    if ws == [] {
      PosBound(s, k);
      AtNothing(s, k);
    } else {
      var n := |ws| - 1;
      assert Emits(ws) == Emits(ws[..n]) + [Emit(ws[n])];
      HasSplit(s, k, Emits(ws[..n]), [Emit(ws[n])]);
      HasAt(s, k, Emits(ws), n);
      WordsAt(s, k, ws[..n]);
      WordAt(s, k + n);
      AtAppend(Linked(s), Pos(s, k), ws[..n], ws[n]);
      assert ws == ws[..n] + [ws[n]];
    }
  }

  lemma AtNothing(s: seq<Ev>, k: nat)
    requires Linkable(s) && k <= |s|
    ensures At(Linked(s), Pos(s, k), [])
  {
    PosBound(s, k);
  }

  lemma WordAt(s: seq<Ev>, k: nat)
    requires Linkable(s) && k < |s| && s[k].Emit? && Clean(s, k)
    ensures Pos(s, k) < |Linked(s)| && Linked(s)[Pos(s, k)] == s[k].i && Pos(s, k + 1) == Pos(s, k) + 1
  {
    LinkKeeps(s, k);
    PosEmit(s, k);
  }

  lemma GoWords(s: seq<Ev>, k: nat, ws: seq<Instr>, x: Data)
    requires Linkable(s) && Has(s, k, Emits(ws)) && Clean(s, k) && Plain(ws)
    ensures Go(s, k, x, k + |ws|, ExecSeq(ws, x)) && Clean(s, k + |ws|)
  {
    hide ExecSeq, Runs;
    WordsAt(s, k, ws);
    RunPlain(Linked(s), Pos(s, k), ws, x);
  }

  /** Event j is where the branch marked at k must go. */
  ghost predicate IsTarget(s: seq<Ev>, k: nat, dest: Dest, j: nat) {
    j <= |s| &&
    match dest
    case ToLine(line) => Pos(s, j) == JumpTable(s, line)
    case ToLocal(l, isNext) => if isNext then IsNextLabel(s, k, l, j) else IsPrevLabel(s, k, l, j)
  }

  /** In a script of at most 2^15 words everything is. */
  lemma ShortReachable(s: seq<Ev>)
    requires Marked(s) && |Code(s)| <= 0x8000
    ensures Reachable(s)
  {
    hide IsTarget, Code;
    forall k, dest, j | 0 <= k < |s| && 0 <= j <= |s| && s[k] == MarkOf(dest) && IsTarget(s, k, dest, j)
      ensures InReach(Pos(s, k), Pos(s, j))
    {
      assert IsMark(s[k]);
      PosEmit(s, k + 1);
      assert s[..k + 1][..k] == s[..k];
      MarkPos(s, k);
      PosBound(s, j);
    }
  }

  lemma MarkPos(s: seq<Ev>, k: nat)
    requires k < |s| && IsMark(s[k])
    ensures Pos(s, k + 1) == Pos(s, k)
  {
    assert s[..k + 1][..k] == s[..k];
  }

  /** The linked branch of a mark: opcode kept, offset to the target. */
  lemma MarkLands(s: seq<Ev>, k: nat, dest: Dest, j: nat)
    requires Linkable(s) && k < |s| && s[k] == MarkOf(dest) && IsTarget(s, k, dest, j)
    ensures k + 1 < |s| && s[k + 1].Emit? && IsBranch(s[k + 1].i)
    ensures Pos(s, k) < |Linked(s)|
    ensures var b := Linked(s)[Pos(s, k)];
            IsBranch(b) && Pos(s, k) + 1 + b.off == Pos(s, j) && b == SetOffset(s[k + 1].i, b.off)
  {
    PosEmit(s, k + 1);
    assert s[..k + 1][..k] == s[..k];
    match dest
    case ToLine(line) => LinkLandsOnLine(s, k);
    case ToLocal(l, isNext) =>
      if isNext {
        LinkLandsOnNext(s, k, j);
      } else {
        LinkLandsOnPrev(s, k, j);
      }
  }

  /** The branch of a mark and its slot, in place. */
  lemma ForkAt(s: seq<Ev>, n: nat, dest: Dest, br: Instr, slot: Instr, j: nat) returns (b: Instr)
    requires Linkable(s) && Has(s, n, [MarkOf(dest), Emit(br), Emit(slot)])
    requires IsTarget(s, n, dest, j)
    ensures IsBranch(br) && IsBranch(b) && b == SetOffset(br, b.off) && Pos(s, n) + 1 + b.off == Pos(s, j)
    ensures At(Linked(s), Pos(s, n), [b, slot]) && Pos(s, n + 3) == Pos(s, n) + 2
    ensures Clean(s, n + 3)
  {
    HasAt(s, n, [MarkOf(dest), Emit(br), Emit(slot)], 0);
    HasAt(s, n, [MarkOf(dest), Emit(br), Emit(slot)], 1);
    HasAt(s, n, [MarkOf(dest), Emit(br), Emit(slot)], 2);
    MarkLands(s, n, dest, j);
    SlotAfter(s, n);
    var c, p := Linked(s), Pos(s, n);
    b := c[p];
    assert c[p..p + 2] == [c[p], c[p + 1]];
  }

  /** A fork in linked code: the pre runs, the slot runs, and the branch decides where to. */
  lemma GoFork(s: seq<Ev>, k: nat, f: Fork, dest: Dest, j: nat, x: Data)
    requires Linkable(s) && Has(s, k, ForkScript(f, dest)) && Clean(s, k)
    requires Plain(f.pre) && IsBranch(f.br) && !IsControl(f.slot)
    requires IsTarget(s, k + |f.pre|, dest, j)
    ensures var x1 := ExecSeq(f.pre, x);
            && Go(s, k, x, if Taken(f.br, x1) then j else k + |f.pre| + 3, Exec(f.slot, x1))
            && Clean(s, k + |f.pre| + 3)
  {
    hide ExecSeq, Exec, Runs, Pos, Linked, At, Taken, Plain;
    var n := k + |f.pre|;
    var x1 := ExecSeq(f.pre, x);
    HasSplit(s, k, Emits(f.pre), [MarkOf(dest), Emit(f.br), Emit(f.slot)]);
    GoWords(s, k, f.pre, x);
    var b := ForkAt(s, n, dest, f.br, f.slot, j);
    RunBranch(Linked(s), Pos(s, n), b, f.slot, x1);
    RunsTrans(Linked(s), Pos(s, k), x, Pos(s, n), x1, if Taken(f.br, x1) then Pos(s, j) else Pos(s, n + 3), Exec(f.slot, x1));
  }

  lemma SlotAfter(s: seq<Ev>, n: nat)
    requires Linkable(s) && n + 2 < |s| && IsMark(s[n]) && s[n + 1].Emit? && s[n + 2].Emit?
    ensures Pos(s, n + 3) == Pos(s, n) + 2 && Pos(s, n) + 1 < |Linked(s)|
    ensures Linked(s)[Pos(s, n) + 1] == s[n + 2].i
  {
    assert s[..n + 1][..n] == s[..n];
    PosEmit(s, n + 1);
    PosEmit(s, n + 2);
    LinkKeeps(s, n + 2);
  }

  // ----- scripts that can be linked -----

  lemma MarkedConcat(a: seq<Ev>, b: seq<Ev>)
    requires Marked(a) && Marked(b)
    ensures Marked(a + b)
  {
  }

  lemma MarkedPlain(ws: seq<Instr>)
    ensures Marked(Emits(ws))
  {
  }

  lemma MarkedFork(f: Fork, dest: Dest)
    requires IsBranch(f.br)
    ensures Marked(ForkScript(f, dest))
  {
  }

  /** Every forward local branch has a label of its number later in the same stretch. */
  predicate LocalsClosed(s: seq<Ev>) {
    forall k :: 0 <= k < |s| && s[k].BranchLocal? ==> s[k].isNext && LabelLater(s, k, s[k].local)
  }

  predicate LabelLater(s: seq<Ev>, k: nat, l: nat) {
    exists j :: k < j < |s| && s[j] == LabelLocal(l)
  }

  lemma ClosedConcat(a: seq<Ev>, b: seq<Ev>)
    requires LocalsClosed(a) && LocalsClosed(b)
    ensures LocalsClosed(a + b)
  {
    var s := a + b;
    forall k | 0 <= k < |s| && s[k].BranchLocal?
      ensures s[k].isNext && LabelLater(s, k, s[k].local)
    {
      if k < |a| {
        var j :| k < j < |a| && a[j] == LabelLocal(a[k].local);
        assert s[j] == LabelLocal(s[k].local);
      } else {
        var j :| k - |a| < j < |b| && b[j] == LabelLocal(b[k - |a|].local);
        assert s[j + |a|] == LabelLocal(s[k].local);
      }
    }
  }

  lemma {:induction false} NextLabelExists(s: seq<Ev>, k: nat, l: nat, j: nat) returns (i: nat)
    requires k < j < |s| && s[j] == LabelLocal(l)
    ensures IsNextLabel(s, k, l, i) && i <= j
    decreases j
  {
    if exists h :: k < h < j && s[h] == LabelLocal(l) {
      var h :| k < h < j && s[h] == LabelLocal(l);
      i := NextLabelExists(s, k, l, h);
    } else {
      i := j;
    }
  }

  /** A label with a word between it and the branch is found by the backward search. */
  lemma {:induction false} EarlierFound(s: seq<Ev>, k: nat, l: nat, j: nat, n: nat)
    requires j < n <= |s| && k <= |s| && s[j] == LabelLocal(l) && Pos(s, j) < Pos(s, k)
    ensures LastBelow(Labels(s[..n], l), Pos(s, k)).Some?
    decreases n
  {
    hide Code;
    assert s[..n] == s[..n - 1] + [s[n - 1]];
    Snoc(s[..n - 1], s[n - 1]);
    if j < n - 1 {
      EarlierFound(s, k, l, j, n - 1);
    }
    var r := Labels(s[..n - 1], l);
    assert (r + [Pos(s, n - 1)])[..|r|] == r;
  }

  /** Every local branch of s can be resolved: forward to a later label, or back over some word. */
  ghost predicate LocalsFound(s: seq<Ev>) {
    forall k :: 0 <= k < |s| && s[k].BranchLocal? ==> if s[k].isNext then LabelLater(s, k, s[k].local) else LabelEarlier(s, k, s[k].local)
  }

  ghost predicate LabelEarlier(s: seq<Ev>, k: nat, l: nat)
    requires k <= |s|
  {
    exists j :: 0 <= j < |s| && s[j] == LabelLocal(l) && Pos(s, j) < Pos(s, k)
  }

  lemma FoundResolvable(s: seq<Ev>)
    requires Marked(s) && LocalsFound(s)
    ensures Resolvable(s)
  {
    hide Labels, PendingOf;
    assert s[..|s|] == s;
    forall p | p in PendingOf(s) && p.dest.ToLocal?
      ensures Search(Labels(s, p.dest.local), p.mline, p.dest.isNext).Some?
    {
      var k := PendingFrom(s, |s|, p);
      if s[k].isNext {
        var j :| k < j < |s| && s[j] == LabelLocal(s[k].local);
        var i := NextLabelExists(s, k, s[k].local, j);
        PosEmit(s, k + 1);
        assert s[..k + 1][..k] == s[..k];
        PosMonotone(s, k + 2, i);
        FindsNext(s, k, s[k].local, i, |s|);
      } else {
        var j :| 0 <= j < |s| && s[j] == LabelLocal(s[k].local) && Pos(s, j) < Pos(s, k);
        EarlierFound(s, k, s[k].local, j, |s|);
      }
    }
  }

  /** Closed stretches leave no local branch without a target. */
  lemma ClosedResolvable(s: seq<Ev>)
    requires Marked(s) && LocalsClosed(s)
    ensures Resolvable(s)
  {
    FoundResolvable(s);
  }

  lemma {:induction false} CodeShort(s: seq<Ev>)
    ensures |Code(s)| <= |s|
    decreases |s|
  {
    if s != [] {
      CodeShort(s[..|s| - 1]);
    }
  }
}
