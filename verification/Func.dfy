/** Closures and their upvalues as objects, with the open list changed in place. */
module Func {
  import opened Wrappers
  import opened Upvalues

  datatype TValue = TValue(t: int, v: int)

  class UpVal {
    var at: Loc
    var own: TValue

    constructor (dst: int, junk: TValue)
      ensures at == Stack(dst) && own == junk
    {
      at, own := Stack(dst), junk;
    }
  }

  datatype UpvalDesc = UpvalDesc(instack: bool, idx: nat)

  datatype Proto = Proto(uvd: seq<UpvalDesc>)

  class Closure {
    var p: Proto
    var uvs: seq<UpVal>

    constructor (p: Proto, uvs: seq<UpVal>)
      ensures this.p == p && this.uvs == uvs
    {
      this.p, this.uvs := p, uvs;
    }
  }

  class LuaState {
    var openuvs: seq<UpVal>
    var stack: map<int, TValue>
    /** Every upvalue made so far. */
    ghost var all: set<UpVal>

    /** The state as a value. */
    ghost function World(): World<UpVal, TValue>
      reads this, all
    {
      Upvalues.World.World(openuvs, map u | u in all :: Up(u.at, u.own), stack)
    }

    ghost predicate Valid()
      reads this, all
    {
      Wf(World())
    }

    constructor (stack: map<int, TValue>)
      ensures Valid() && openuvs == [] && all == {} && this.stack == stack
    {
      openuvs, this.stack, all := [], stack, {};
    }

    /** find_stackupval: the open upvalue of a slot, made and listed first if there is none. */
    method FindStackupval(stackbase: int, idx: nat) returns (uv: UpVal)
      requires Valid() && TvalueOffset(stackbase, idx) in stack
      modifies this`openuvs, this`all
      ensures Valid() && uv in all && uv in openuvs && uv.at == Stack(TvalueOffset(stackbase, idx))
      ensures uv !in old(all) ==> fresh(uv)
      ensures all == old(all) + {uv} && openuvs == (if uv in old(all) then old(openuvs) else [uv] + old(openuvs))
      ensures uv !in old(all) <==> FindFrom(old(World()), TvalueOffset(stackbase, idx), 0).None?
      ensures World() == Upvalues.Capture(old(World()), TvalueOffset(stackbase, idx), uv, uv.own)
      ensures uv == Captured(old(World()), TvalueOffset(stackbase, idx), uv)
    {
      var dst := TvalueOffset(stackbase, idx);
      ghost var w := World();
      var i := 0;
      while i < |openuvs|
        invariant 0 <= i <= |openuvs|
        invariant FindFrom(w, dst, 0) == FindFrom(w, dst, i)
      {
        uv := openuvs[i];
        assert uv in w.open && AddrAt(w, i) == uv.at.addr;
        if uv.at == Stack(dst) {
          return;
        }
        i := i + 1;
      }
      uv := new UpVal(dst, stack[dst]);
      CaptureWf(w, dst, uv, uv.own);
      openuvs := [uv] + openuvs;
      all := all + {uv};
      assert World().ups == w.ups[uv := Up(Stack(dst), uv.own)];
    }

    /** closure_close: migrate open upvalues from the head until one is above the base. */
    method ClosureClose(stackbase: int)
      requires Valid()
      modifies this`openuvs, openuvs
      ensures Valid() && World() == Close(old(World()), stackbase)
    {
      hide Wf, CloseFirst;
      ghost var w := World();
      ghost var n := 0;
      CloseNone(w);
      while openuvs != []
        invariant n <= |w.open| && Leading(w, stackbase, 0) == Leading(w, stackbase, n)
        invariant World() == CloseFirst(w, n) && all == old(all) && stack == old(stack)
        invariant openuvs == old(openuvs)[n..]
        decreases |openuvs|
      {
        var uv := openuvs[0];
        HeadOpen(w, n);
        assert uv in old(openuvs) && uv in all && AddrAt(w, n) == uv.at.addr;
        if uv.at.addr > stackbase {
          break;
        }
        ghost var z := World();
        openuvs := openuvs[1..];
        uv.own := stack[uv.at.addr];
        uv.at := Own;
        CloseNext(w, n);
        assert World().ups == z.ups[uv := Migrated(w, uv)];
        n := n + 1;
      }
      CloseFirstWf(w, n);
    }
  }

  lemma CloseNone<U, V>(w: World<U, V>)
    requires Wf(w)
    ensures CloseFirst(w, 0) == w
  {
    assert w.open[..0] == [];
  }

  lemma HeadOpen<U, V>(w: World<U, V>, n: nat)
    requires Wf(w) && n < |w.open|
    ensures var u := w.open[n];
            && u in w.ups && w.ups[u] == Up(Stack(AddrAt(w, n)), w.ups[u].own) && AddrAt(w, n) in w.stack
            && CloseFirst(w, n).open[0] == u && CloseFirst(w, n).ups[u] == w.ups[u]
  {
    FirstRest(w, n, 0);
  }

  /** One more migration from the head. */
  lemma CloseNext<U, V>(w: World<U, V>, n: nat)
    requires Wf(w) && n < |w.open|
    ensures var u, z := w.open[n], CloseFirst(w, n);
            u in w.ups && CloseFirst(w, n + 1) == z.(open := z.open[1..], ups := z.ups[u := Migrated(w, u)])
  {
    var u, z := w.open[n], CloseFirst(w, n);
    assert u in w.ups;
    assert w.open[..n + 1] == w.open[..n] + [u];
    assert z.open[1..] == w.open[n + 1..];
  }

  predicate ParentHas(p: Proto, parent: seq<UpVal>) {
    forall d <- p.uvd :: !d.instack ==> d.idx < |parent|
  }

  predicate BaseHas(p: Proto, stackbase: int, stack: map<int, TValue>) {
    forall d <- p.uvd :: d.instack ==> TvalueOffset(stackbase, d.idx) in stack
  }

  /** Entry i of the new closure: the one open upvalue of its slot, or its parent's. */
  ghost predicate EntryFor(d: UpvalDesc, uv: UpVal, parent: seq<UpVal>, stackbase: int, ls: LuaState)
    reads ls, uv
  {
    if d.instack then uv in ls.openuvs && uv.at == Stack(TvalueOffset(stackbase, d.idx))
    else d.idx < |parent| && uv == parent[d.idx]
  }

  /** The upvalues to inherit: none without a parent. */
  function Inherited(parent: Closure?): seq<UpVal>
    reads parent
  {
    if parent == null then [] else parent.uvs
  }

  /** closure_create: every upvalue of the prototype resolved, sharing what is already open; a main chunk has no parent. */
  method ClosureCreate(ls: LuaState, p: Proto, parent: Closure?, stackbase: int) returns (c: Closure)
    requires ls.Valid() && ParentHas(p, Inherited(parent)) && BaseHas(p, stackbase, ls.stack)
    modifies ls`openuvs, ls`all
    ensures ls.Valid() && fresh(c) && c.p == p && |c.uvs| == |p.uvd|
    ensures forall i :: 0 <= i < |p.uvd| ==> EntryFor(p.uvd[i], c.uvs[i], old(Inherited(parent)), stackbase, ls)
    ensures exists made: seq<UpVal> ::
              && ls.openuvs == made + old(ls.openuvs) && (forall u <- made :: fresh(u))
              && ls.all == old(ls.all) + (set u | u in made)
  {
    hide Wf, LuaState.World, FindFrom, Captured, Capture, Close;
    var uvs: seq<UpVal> := [];
    ghost var made: seq<UpVal> := [];
    var i := 0;
    while i < |p.uvd|
      invariant 0 <= i <= |p.uvd| && |uvs| == i && ls.Valid()
      invariant forall k :: 0 <= k < i ==> EntryFor(p.uvd[k], uvs[k], old(Inherited(parent)), stackbase, ls)
      invariant ls.openuvs == made + old(ls.openuvs) && (forall u <- made :: fresh(u))
      invariant ls.all == old(ls.all) + set u | u in made
    {
      var d := p.uvd[i];
      var uv: UpVal;
      assert d in p.uvd;
      if d.instack {
        ghost var before := ls.openuvs;
        uv := ls.FindStackupval(stackbase, d.idx);
        if uv in old(ls.all) || uv in made {
          assert ls.openuvs == before;
        } else {
          made := [uv] + made;
        }
      } else {
        uv := parent.uvs[d.idx];
      }
      uvs := uvs + [uv];
      i := i + 1;
    }
    c := new Closure(p, uvs);
  }
}
