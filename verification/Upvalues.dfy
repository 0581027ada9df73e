/**
 Open and closed upvalues as values: the list of open upvalues, where each upvalue points,
 and the stack. The functions are what find_stackupval and closure_close do to it; the
 lemmas are exactly when closing from an address closes the right ones.
 */
module Upvalues {
  import opened Wrappers

  /** Where an upvalue's val pointer points: a stack slot while open, its own field once closed. */
  datatype Loc = Stack(addr: int) | Own

  datatype Up<V> = Up(at: Loc, own: V)

  datatype World<U, V> = World(open: seq<U>, ups: map<U, Up<V>>, stack: map<int, V>)

  const TVALUE_SIZE: int := 8

  /** Address of local idx of the frame whose local 0 is at base; the stack grows down. */
  function TvalueOffset(base: int, idx: nat): int {
    base - TVALUE_SIZE * idx
  }

  /** Open upvalues are listed once each, each at its own stack slot; the rest are closed. */
  predicate Wf<U, V>(w: World<U, V>) {
    && (forall u <- w.open :: u in w.ups && w.ups[u].at.Stack? && w.ups[u].at.addr in w.stack)
    && (forall u <- w.ups :: w.ups[u].at.Stack? ==> u in w.open)
    && (forall i, j :: 0 <= i < j < |w.open| ==> w.open[i] != w.open[j] && AddrAt(w, i) != AddrAt(w, j))
  }

  function AddrAt<U, V>(w: World<U, V>, i: nat): int
    requires i < |w.open|
  {
    if w.open[i] in w.ups && w.ups[w.open[i]].at.Stack? then w.ups[w.open[i]].at.addr else 0
  }

  /** The first listed upvalue pointing at dst, from position i. */
  function FindFrom<U, V>(w: World<U, V>, dst: int, i: nat): (r: Option<nat>)
    requires i <= |w.open|
    ensures r.Some? ==> i <= r.value < |w.open| && AddrAt(w, r.value) == dst
    ensures r.None? ==> forall j :: i <= j < |w.open| ==> AddrAt(w, j) != dst
    decreases |w.open| - i
  {
    if i == |w.open| then None
    else if AddrAt(w, i) == dst then Some(i)
    else FindFrom(w, dst, i + 1)
  }

  /** The upvalue for slot dst: the open one if there is one, else a new one, put at the head. */
  function Captured<U, V>(w: World<U, V>, dst: int, made: U): U {
    var r := FindFrom(w, dst, 0);
    if r.Some? then w.open[r.value] else made
  }

  function Capture<U, V>(w: World<U, V>, dst: int, made: U, junk: V): World<U, V> {
    if FindFrom(w, dst, 0).Some? then w
    else w.(open := [made] + w.open, ups := w.ups[made := Up(Stack(dst), junk)])
  }

  /** How many upvalues at the head of the list are at or below b. */
  function Leading<U, V>(w: World<U, V>, b: int, i: nat): (n: nat)
    requires i <= |w.open|
    ensures i <= n <= |w.open|
    ensures forall j :: i <= j < n ==> AddrAt(w, j) <= b
    ensures n < |w.open| ==> AddrAt(w, n) > b
    decreases |w.open| - i
  {
    if i == |w.open| || AddrAt(w, i) > b then i else Leading(w, b, i + 1)
  }

  /** One upvalue moved from its slot into its own field. */
  function Migrated<U, V>(w: World<U, V>, u: U): Up<V>
    requires u in w.ups && w.ups[u].at.Stack? && w.ups[u].at.addr in w.stack
  {
    Up(Own, w.stack[w.ups[u].at.addr])
  }

  /** The first n listed upvalues migrated and unlisted. */
  function CloseFirst<U, V>(w: World<U, V>, n: nat): World<U, V>
    requires Wf(w) && n <= |w.open|
  {
    w.(open := w.open[n..],
       ups := map u | u in w.ups :: if u in w.open[..n] then Migrated(w, u) else w.ups[u])
  }

  /** closure_close: migrate from the head until one is above b. */
  function Close<U, V>(w: World<U, V>, b: int): World<U, V>
    requires Wf(w)
  {
    CloseFirst(w, Leading(w, b, 0))
  }

  /** What reading through an upvalue gives. */
  function ReadUp<U, V>(w: World<U, V>, u: U): V
    requires u in w.ups && (w.ups[u].at.Stack? ==> w.ups[u].at.addr in w.stack)
  {
    match w.ups[u].at
    case Stack(addr) => w.stack[addr]
    case Own => w.ups[u].own
  }

  function WriteUp<U, V>(w: World<U, V>, u: U, v: V): World<U, V>
    requires u in w.ups
  {
    match w.ups[u].at
    case Stack(addr) => w.(stack := w.stack[addr := v])
    case Own => w.(ups := w.ups[u := Up(Own, v)])
  }

  predicate IsOpen<U, V>(w: World<U, V>, u: U) {
    u in w.ups && w.ups[u].at.Stack?
  }

  /** No upvalue at or below b is listed behind one above b. */
  predicate Splits<U, V>(w: World<U, V>, b: int) {
    forall i, j :: 0 <= i < j < |w.open| ==> AddrAt(w, i) > b ==> AddrAt(w, j) > b
  }

  /** Closing from b closes exactly the upvalues at or below c. */
  predicate ClosesExactly<U, V>(w: World<U, V>, b: int, c: int)
    requires Wf(w)
  {
    forall u <- w.ups :: IsOpen(Close(w, b), u) <==> IsOpen(w, u) && w.ups[u].at.addr > c
  }

  /** No open upvalue is above b and still at or below c. */
  predicate NoneBetween<U, V>(w: World<U, V>, b: int, c: int) {
    forall i :: 0 <= i < |w.open| ==> !(b < AddrAt(w, i) <= c)
  }

  lemma HeadShape<U, V>(w: World<U, V>, dst: int, made: U, junk: V, i: nat)
    requires Wf(w) && made !in w.ups && dst in w.stack && FindFrom(w, dst, 0).None? && i <= |w.open|
    ensures var w' := Capture(w, dst, made, junk);
            && |w'.open| == |w.open| + 1 && w'.open[i] in w'.ups && IsOpen(w', w'.open[i]) && w'.ups[w'.open[i]].at.addr in w.stack
            && AddrAt(w', i) == (if i == 0 then dst else AddrAt(w, i - 1))
            && w'.open[i] == (if i == 0 then made else w.open[i - 1])
  {
    if i > 0 {
      assert w.open[i - 1] in w.ups;
    }
  }

  lemma CaptureHead<U, V>(w: World<U, V>, dst: int, made: U, junk: V)
    requires Wf(w) && made !in w.ups && dst in w.stack && FindFrom(w, dst, 0).None?
    ensures Wf(Capture(w, dst, made, junk))
  {
    hide Capture, FindFrom, AddrAt;
    var w' := Capture(w, dst, made, junk);
    HeadKeeps(w, dst, made, junk);
    forall i, j | 0 <= i < j < |w'.open|
      ensures w'.open[i] != w'.open[j] && AddrAt(w', i) != AddrAt(w', j)
    {
      HeadShape(w, dst, made, junk, i);
      HeadShape(w, dst, made, junk, j);
      assert w.open[j - 1] in w.ups;
    }
    forall u | u in w'.open
      ensures u in w'.ups && IsOpen(w', u) && w'.ups[u].at.addr in w'.stack
    {
      var i :| 0 <= i < |w'.open| && w'.open[i] == u;
      HeadShape(w, dst, made, junk, i);
    }
  }

  lemma HeadKeeps<U, V>(w: World<U, V>, dst: int, made: U, junk: V)
    requires Wf(w) && made !in w.ups && FindFrom(w, dst, 0).None?
    ensures var w' := Capture(w, dst, made, junk);
            && w'.ups.Keys == w.ups.Keys + {made} && w'.ups[made] == Up(Stack(dst), junk)
            && (forall u <- w.ups :: w'.ups[u] == w.ups[u])
            && w'.open == [made] + w.open && w'.stack == w.stack
  {
  }

  /** Capturing gives an open upvalue at the slot, one only, and disturbs no other. */
  lemma CaptureWf<U, V>(w: World<U, V>, dst: int, made: U, junk: V)
    requires Wf(w) && made !in w.ups && dst in w.stack
    ensures var w', u := Capture(w, dst, made, junk), Captured(w, dst, made);
            && Wf(w') && IsOpen(w', u) && w'.ups[u].at.addr == dst
            && (forall v <- w.ups :: v in w'.ups && w'.ups[v] == w.ups[v])
            && w'.stack == w.stack && (w'.open == w.open || w'.open == [u] + w.open)
  {
    hide Wf;
    if FindFrom(w, dst, 0).None? {
      CaptureHead(w, dst, made, junk);
      HeadKeeps(w, dst, made, junk);
    } else {
      RestApart(w, 0, FindFrom(w, dst, 0).value);
      ListedOpen(w, FindFrom(w, dst, 0).value);
    }
  }

  lemma ListedOpen<U, V>(w: World<U, V>, i: nat)
    requires Wf(w) && i < |w.open|
    ensures IsOpen(w, w.open[i]) && w.ups[w.open[i]].at.addr == AddrAt(w, i)
  {
    assert w.open[i] in w.ups;
  }

  /** The listed upvalues after the first n are not among the first n. */
  lemma RestApart<U, V>(w: World<U, V>, n: nat, i: nat)
    requires Wf(w) && n <= |w.open| && i < |w.open|
    ensures w.open[i] in w.ups && (w.open[i] in w.open[..n] <==> i < n)
  {
    if i < n {
      assert w.open[..n][i] == w.open[i];
    }
  }

  lemma ClosedFirst<U, V>(w: World<U, V>, n: nat, u: U)
    requires Wf(w) && n <= |w.open| && u in w.ups
    ensures u in CloseFirst(w, n).ups && CloseFirst(w, n).ups[u] == if u in w.open[..n] then Migrated(w, u) else w.ups[u]
    ensures IsOpen(w, u) ==> w.ups[u].at.addr in w.stack
    ensures IsOpen(CloseFirst(w, n), u) ==> u in w.open[n..] && CloseFirst(w, n).ups[u].at.addr in w.stack
    ensures ReadUp(CloseFirst(w, n), u) == ReadUp(w, u)
  {
    if IsOpen(w, u) {
      assert u in w.open;
      assert w.open == w.open[..n] + w.open[n..];
    }
  }

  lemma FirstRest<U, V>(w: World<U, V>, n: nat, j: nat)
    requires Wf(w) && n <= |w.open| && j < |w.open| - n
    ensures var w' := CloseFirst(w, n);
            w'.open[j] == w.open[n + j] && w.open[n + j] in w.ups && w'.ups[w'.open[j]] == w.ups[w.open[n + j]]
            && AddrAt(w', j) == AddrAt(w, n + j)
  {
    RestApart(w, n, n + j);
  }

  lemma CloseFirstWf<U, V>(w: World<U, V>, n: nat)
    requires Wf(w) && n <= |w.open|
    ensures Wf(CloseFirst(w, n))
  {
    hide CloseFirst, Migrated;
    var w' := CloseFirst(w, n);
    FirstShape(w, n);
    forall u | u in w'.open
      ensures u in w'.ups && w'.ups[u].at.Stack? && w'.ups[u].at.addr in w'.stack
    {
      var j :| 0 <= j < |w'.open| && w'.open[j] == u;
      FirstRest(w, n, j);
    }
    forall u | u in w'.ups && w'.ups[u].at.Stack?
      ensures u in w'.open
    {
      ClosedFirst(w, n, u);
    }
    forall i, j | 0 <= i < j < |w'.open|
      ensures w'.open[i] != w'.open[j] && AddrAt(w', i) != AddrAt(w', j)
    {
      FirstRest(w, n, i);
      FirstRest(w, n, j);
    }
  }

  lemma FirstShape<U, V>(w: World<U, V>, n: nat)
    requires Wf(w) && n <= |w.open|
    ensures var w' := CloseFirst(w, n); w'.open == w.open[n..] && w'.ups.Keys == w.ups.Keys && w'.stack == w.stack
  {
  }

  /** Closing never changes what is read through any upvalue. */
  lemma CloseKeepsValues<U, V>(w: World<U, V>, b: int)
    requires Wf(w)
    ensures Wf(Close(w, b)) && Close(w, b).ups.Keys == w.ups.Keys && Close(w, b).stack == w.stack
    ensures forall u <- w.ups :: (IsOpen(w, u) ==> w.ups[u].at.addr in w.stack) && ReadUp(Close(w, b), u) == ReadUp(w, u)
  {
    hide CloseFirst, Wf;
    var n := Leading(w, b, 0);
    FirstShape(w, n);
    CloseFirstWf(w, n);
    forall u | u in w.ups
      ensures IsOpen(w, u) ==> w.ups[u].at.addr in w.stack
      ensures u in Close(w, b).ups && (IsOpen(Close(w, b), u) ==> Close(w, b).ups[u].at.addr in w.stack)
      ensures ReadUp(Close(w, b), u) == ReadUp(w, u)
    {
      ClosedFirst(w, n, u);
    }
  }

  lemma OpenAfter<U, V>(w: World<U, V>, b: int, i: nat)
    requires Wf(w) && i < |w.open|
    ensures w.open[i] in w.ups && IsOpen(w, w.open[i]) && AddrAt(w, i) == w.ups[w.open[i]].at.addr
    ensures IsOpen(Close(w, b), w.open[i]) <==> i >= Leading(w, b, 0)
  {
    RestApart(w, Leading(w, b, 0), i);
    ClosedFirst(w, Leading(w, b, 0), w.open[i]);
  }

  /**
   Stopping at the first larger address is right exactly when the list is split at b: every
   upvalue to close is listed before every one to keep. Asking for c and passing a lower b is
   right exactly when, besides, nothing open lies between.
   */
  lemma ClosesExactlyIff<U, V>(w: World<U, V>, b: int, c: int)
    requires Wf(w) && b <= c
    ensures ClosesExactly(w, b, c) <==> Splits(w, b) && NoneBetween(w, b, c)
  {
    if Splits(w, b) && NoneBetween(w, b, c) {
      forall u | u in w.ups
        ensures IsOpen(Close(w, b), u) <==> IsOpen(w, u) && w.ups[u].at.addr > c
      {
        if u in w.open {
          var i :| 0 <= i < |w.open| && w.open[i] == u;
          OpenAfter(w, b, i);
          assert AddrAt(w, i) == w.ups[u].at.addr;
        }
      }
    }
    if ClosesExactly(w, b, c) {
      forall i | 0 <= i < |w.open|
        ensures !(b < AddrAt(w, i) <= c) && (i >= Leading(w, b, 0) ==> AddrAt(w, i) > c)
      {
        OpenAfter(w, b, i);
        assert w.open[i] in w.ups;
      }
    }
  }

  /** Open upvalues at or below base are at slots of the frame based there. */
  predicate Aligned<U, V>(w: World<U, V>, base: int) {
    forall i :: 0 <= i < |w.open| && AddrAt(w, i) <= base ==> (base - AddrAt(w, i)) % TVALUE_SIZE == 0
  }

  lemma BetweenSlots(base: int, a: nat, addr: int)
    requires a > 0 && addr <= base && (base - addr) % TVALUE_SIZE == 0
    requires TvalueOffset(base, a + 1) < addr <= TvalueOffset(base, a - 1)
    ensures addr == TvalueOffset(base, a - 1) || addr == TvalueOffset(base, a)
  {
    var k := (base - addr) / 8;
    assert base - addr == 8 * k;
  }

  lemma BetweenAt<U, V>(w: World<U, V>, base: int, a: nat, i: nat)
    requires Aligned(w, base) && a > 0 && i < |w.open|
    requires TvalueOffset(base, a + 1) < AddrAt(w, i) <= TvalueOffset(base, a - 1)
    ensures AddrAt(w, i) == TvalueOffset(base, a - 1) || AddrAt(w, i) == TvalueOffset(base, a)
  {
    BetweenSlots(base, a, AddrAt(w, i));
  }

  lemma NoneBetweenIff<U, V>(w: World<U, V>, base: int, a: nat)
    requires Aligned(w, base) && a > 0
    ensures NoneBetween(w, TvalueOffset(base, a + 1), TvalueOffset(base, a - 1)) <==>
            FindFrom(w, TvalueOffset(base, a - 1), 0).None? && FindFrom(w, TvalueOffset(base, a), 0).None?
  {
    hide Aligned, FindFrom, AddrAt;
    if FindFrom(w, TvalueOffset(base, a - 1), 0).None? && FindFrom(w, TvalueOffset(base, a), 0).None? {
      forall i | 0 <= i < |w.open|
        ensures !(TvalueOffset(base, a + 1) < AddrAt(w, i) <= TvalueOffset(base, a - 1))
      {
        if TvalueOffset(base, a + 1) < AddrAt(w, i) <= TvalueOffset(base, a - 1) {
          BetweenAt(w, base, a, i);
        }
      }
    }
  }

  /**
   closure_close called with the address of register A + 1, where Lua closes from A - 1: right
   exactly when the list is split there and neither A - 1 nor A is captured.
   */
  lemma CloseFromNextIff<U, V>(w: World<U, V>, base: int, a: nat)
    requires Wf(w) && Aligned(w, base) && a > 0
    ensures ClosesExactly(w, TvalueOffset(base, a + 1), TvalueOffset(base, a - 1)) <==>
            && Splits(w, TvalueOffset(base, a + 1))
            && FindFrom(w, TvalueOffset(base, a - 1), 0).None? && FindFrom(w, TvalueOffset(base, a), 0).None?
  {
    hide Wf, Aligned, Splits, NoneBetween, FindFrom, ClosesExactly;
    NoneBetweenIff(w, base, a);
    ClosesExactlyIff(w, TvalueOffset(base, a + 1), TvalueOffset(base, a - 1));
  }

  /**
   Captures in ascending address order break the split: after capturing local 1 and then
   local 0 of one frame, closing from local 1 leaves its upvalue open.
   */
  lemma AscendingCapturesStayOpen<V>(base: int, v: V)
    ensures var w0 := World([], map[], map[TvalueOffset(base, 0) := v, TvalueOffset(base, 1) := v]);
            var w1 := Capture(w0, TvalueOffset(base, 1), 1, v);
            var w2 := Capture(w1, TvalueOffset(base, 0), 0, v);
            var b := TvalueOffset(base, 1);
            && Wf(w2) && IsOpen(Close(w2, b), 1) && !ClosesExactly(w2, b, b)
  {
    var b := TvalueOffset(base, 1);
    var w0: World<int, V> := World([], map[], map[TvalueOffset(base, 0) := v, b := v]);
    var w1 := Capture(w0, b, 1, v);
    CaptureWf(w0, b, 1, v);
    CaptureWf(w1, TvalueOffset(base, 0), 0, v);
    var w2 := Capture(w1, TvalueOffset(base, 0), 0, v);
    assert w1.open == [1] && w2.open == [0, 1];
    assert AddrAt(w2, 0) == base > b && AddrAt(w2, 1) == b;
    ClosesExactlyIff(w2, b, b);
    OpenAfter(w2, b, 1);
  }
}
