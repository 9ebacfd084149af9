/**
 The slab allocator (kernel/mm/slab.c): the choice of the slab size, and the objects of a
 cache. Every object is followed by a control word, which is the link of the free chain while
 the object is free and points to its slab while it is not. Addresses are numbers and the
 null pointer is 0.
 */
module Slab {
  import opened Arith
  import opened Common
  import opened Lists

  // ---------- the slab size ----------

  const PAGE := 4096
  const MAX_ORDER := 5
  // With so many block sizes the largest block is less than 2^31 bytes.
  const MAX_SIZES := 19

  // The sizes of a slab structure and of a control word.
  datatype Sizes = Sizes(slab: nat, bufctl: nat)

  // _slab_size
  function SlabSize(z: Sizes, objsize: nat, nobjs: nat): nat { nobjs * (objsize + z.bufctl) + z.slab }

  // _slab_nobjs, of a block that holds a slab structure
  function SlabObjs(z: Sizes, objsize: nat, order: nat): nat
    requires z.bufctl > 0
  {
    if PAGE * Pow2(order) < z.slab then 0
    else
      DivNonNegative(PAGE * Pow2(order) - z.slab, objsize + z.bufctl);
      (PAGE * Pow2(order) - z.slab) / (objsize + z.bufctl)
  }

  // _slab_waste
  function Waste(z: Sizes, objsize: nat, order: nat): int
    requires z.bufctl > 0
  {
    PAGE * Pow2(order) - SlabSize(z, objsize, SlabObjs(z, objsize, order))
  }

  // A block of the order holds a slab of one object.
  predicate Holds(z: Sizes, objsize: nat, order: nat) { PAGE * Pow2(order) >= SlabSize(z, objsize, 1) }

  // As many objects fit as there can be, and the waste is what is left.
  lemma SlabObjsFit(z: Sizes, objsize: nat, order: nat)
    requires z.bufctl > 0 && Holds(z, objsize, order)
    ensures var n := SlabObjs(z, objsize, order);
            && n >= 1 && SlabSize(z, objsize, n) <= PAGE * Pow2(order) < SlabSize(z, objsize, n + 1)
            && 0 <= Waste(z, objsize, order) < objsize + z.bufctl
  {
    var a, b := PAGE * Pow2(order) - z.slab, objsize + z.bufctl;
    DivBounds(a, b);
    var n := a / b;
    assert n * b <= a < (n + 1) * b;
    MulStrict(1, n + 1, b);
  }

  // _calc_slab_size. `nsizes` is how many block sizes the page allocator has. The size of a
  // slab of one object is cast to int: from 2^31 on the least block is taken to hold it, and
  // the slab gets no object.
  method CalcSlabSize(z: Sizes, objsize: nat, nsizes: nat) returns (panicked: bool, order: nat, nobjs: nat)
    requires z.bufctl > 0 && z.slab <= PAGE && nsizes <= MAX_SIZES && SlabSize(z, objsize, 1) < 2 * INT_LIMIT
    ensures SlabSize(z, objsize, 1) < INT_LIMIT ==>
              (panicked <==> forall o :: 0 <= o < nsizes ==> !Holds(z, objsize, o))
    ensures SlabSize(z, objsize, 1) >= INT_LIMIT ==> panicked == (nsizes == 0) && order == 0 && nobjs == 0
    ensures !panicked && SlabSize(z, objsize, 1) < INT_LIMIT ==>
              exists least: nat :: IsLeast(z, objsize, least) && least <= order && (order == least || order < MAX_ORDER)
                && (forall o :: least <= o < MAX_ORDER || o == least ==>
                    Waste(z, objsize, order) <= Waste(z, objsize, o))
                && (forall o :: least <= o < order ==> Waste(z, objsize, order) < Waste(z, objsize, o))
    ensures !panicked && SlabSize(z, objsize, 1) < INT_LIMIT ==>
              nobjs >= 1 && nobjs == SlabObjs(z, objsize, order) && SlabSize(z, objsize, nobjs) <= PAGE * Pow2(order)
  {
    hide SlabSize, SlabObjs, Waste, AsInt;
    var minorder, minsize := 0, AsInt(SlabSize(z, objsize, 1));
    while minorder < nsizes && !(AsInt(PAGE * Pow2(minorder)) >= minsize)
      invariant 0 <= minorder <= nsizes
      invariant SlabSize(z, objsize, 1) < INT_LIMIT ==> forall o :: 0 <= o < minorder ==> !Holds(z, objsize, o)
      invariant SlabSize(z, objsize, 1) >= INT_LIMIT ==> minorder == 0
    {
      CastTest(z, objsize, minorder);
      minorder := minorder + 1;
    }
    if minorder < nsizes { CastTest(z, objsize, minorder); }
    if minorder == nsizes {
      return true, 0, 0;
    }
    var best, bestWaste := minorder, Waste(z, objsize, minorder);
    var o := minorder + 1;
    while o < MAX_ORDER
      invariant minorder < o && (o <= MAX_ORDER || o == minorder + 1) && minorder <= best < o
                && bestWaste == Waste(z, objsize, best)
      invariant best == minorder || best < MAX_ORDER
      invariant forall k :: minorder <= k < o ==> bestWaste <= Waste(z, objsize, k)
      invariant forall k :: minorder <= k < best ==> bestWaste < Waste(z, objsize, k)
      invariant SlabSize(z, objsize, 1) >= INT_LIMIT ==> best == 0
    {
      if SlabSize(z, objsize, 1) >= INT_LIMIT { NoObject(z, objsize, o); }
      var waste := Waste(z, objsize, o);
      if waste < bestWaste {
        bestWaste := waste;
        best := o;
      }
      o := o + 1;
    }
    if SlabSize(z, objsize, 1) < INT_LIMIT {
      assert IsLeast(z, objsize, minorder);
      HoldsMore(z, objsize, minorder, best);
      SlabObjsFit(z, objsize, best);
    } else {
      NoObject(z, objsize, 0);
    }
    panicked, order, nobjs := false, best, SlabObjs(z, objsize, best);
  }

  // The test of block sizes, on values cast to int.
  lemma CastTest(z: Sizes, objsize: nat, order: nat)
    requires order < MAX_SIZES && SlabSize(z, objsize, 1) < 2 * INT_LIMIT
    ensures var t := AsInt(PAGE * Pow2(order)) >= AsInt(SlabSize(z, objsize, 1));
            if SlabSize(z, objsize, 1) < INT_LIMIT then t <==> Holds(z, objsize, order) else t
  {
    hide SlabSize, Pow2;
    Pow2Monotone(order, 18);
    Pow2Eighteen();
    assert 0 <= PAGE * Pow2(order) <= 0x4000_0000;
  }

  lemma Pow2Eighteen()
    ensures Pow2(18) == 0x4_0000
  {
    assert Pow2(6) == 64;
    Pow2Add(6, 6);
    Pow2Add(12, 6);
  }

  // An object larger than every block that is tried.
  lemma NoObject(z: Sizes, objsize: nat, order: nat)
    requires z.bufctl > 0 && z.slab <= PAGE && SlabSize(z, objsize, 1) >= INT_LIMIT && order < MAX_ORDER
    ensures SlabObjs(z, objsize, order) == 0
            && Waste(z, objsize, order) == PAGE * Pow2(order) - z.slab >= Waste(z, objsize, 0)
  {
    Pow2Monotone(0, order);
    Pow2Monotone(order, MAX_ORDER);
    assert Pow2(MAX_ORDER) == 32;
    NoneFit(z, objsize, order);
    NoneFit(z, objsize, 0);
  }

  lemma NoneFit(z: Sizes, objsize: nat, order: nat)
    requires z.bufctl > 0 && z.slab <= PAGE * Pow2(order) < objsize + z.bufctl + z.slab
    ensures SlabObjs(z, objsize, order) == 0 && Waste(z, objsize, order) == PAGE * Pow2(order) - z.slab
  {
    var a, b := PAGE * Pow2(order) - z.slab, objsize + z.bufctl;
    DivModUnique(a, b, 0, a);
  }

  // The smallest order whose block holds one object.
  ghost predicate IsLeast(z: Sizes, objsize: nat, order: nat)
  {
    Holds(z, objsize, order) && forall o :: 0 <= o < order ==> !Holds(z, objsize, o)
  }

  lemma HoldsMore(z: Sizes, objsize: nat, a: nat, b: nat)
    requires Holds(z, objsize, a) && a <= b
    ensures Holds(z, objsize, b)
  {
    Pow2Monotone(a, b);
  }

  // ---------- chains of free objects ----------

  datatype Ctl = Next(next: nat) | InSlab(slab: nat)

  // From address a the control words lead through the list, to null.
  ghost predicate IsChain(ctl: map<nat, Ctl>, a: nat, l: seq<nat>)
    decreases |l|
  {
    if l == [] then a == 0
    else a == l[0] && a != 0 && a in ctl && ctl[a].Next? && IsChain(ctl, ctl[a].next, l[1..])
  }

  lemma {:induction false} ChainFrame(ctl: map<nat, Ctl>, ctl': map<nat, Ctl>, a: nat, l: seq<nat>)
    requires IsChain(ctl, a, l) && forall o :: o in l ==> o in ctl' && o in ctl && ctl'[o] == ctl[o]
    ensures IsChain(ctl', a, l)
    decreases |l|
  {
    if l != [] { ChainFrame(ctl, ctl', ctl[a].next, l[1..]); }
  }

  lemma {:induction false} ChainLinks(ctl: map<nat, Ctl>, a: nat, l: seq<nat>)
    requires IsChain(ctl, a, l)
    ensures forall o :: o in l ==> o in ctl && ctl[o].Next?
    decreases |l|
  {
    if l != [] {
      ChainLinks(ctl, ctl[a].next, l[1..]);
      assert forall o :: o in l <==> o == l[0] || o in l[1..];
    }
  }

  // ---------- the slabs of a cache ----------

  // An object and its control word take `stride` bytes, a slab's pages `span`.
  datatype Layout = Layout(stride: nat, nobjs: nat, span: nat)

  ghost predicate LayoutOk(y: Layout) { y.stride > 0 && y.nobjs > 0 && y.nobjs * y.stride <= y.span }

  function Obj(y: Layout, b: nat, i: nat): nat { b + i * y.stride }

  // The layout that _calc_slab_size chooses: the objects and the slab structure after the
  // last one lie in the block.
  lemma ChosenLayout(z: Sizes, objsize: nat, order: nat, b: nat)
    requires z.bufctl > 0 && Holds(z, objsize, order)
    ensures var y := Layout(objsize + z.bufctl, SlabObjs(z, objsize, order), PAGE * Pow2(order));
            LayoutOk(y) && Obj(y, b, y.nobjs) + z.slab <= b + y.span
  {
    hide SlabObjs, Waste;
    SlabObjsFit(z, objsize, order);
  }

  // Objects of a slab lie in it and do not overlap.
  lemma ObjsApart(y: Layout, b: nat, i: nat, j: nat)
    requires LayoutOk(y) && i < j < y.nobjs
    ensures b <= Obj(y, b, i) && Obj(y, b, i) + y.stride <= Obj(y, b, j) && Obj(y, b, j) + y.stride <= b + y.span
  {
    MulMono(i + 1, j, y.stride);
    MulMono(j + 1, y.nobjs, y.stride);
    assert (i + 1) * y.stride == i * y.stride + y.stride && (j + 1) * y.stride == j * y.stride + y.stride;
  }

  lemma ObjIn(y: Layout, b: nat, i: nat)
    requires LayoutOk(y) && i < y.nobjs
    ensures b <= Obj(y, b, i) && Obj(y, b, i) + y.stride <= b + y.span
  {
    MulMono(i + 1, y.nobjs, y.stride);
    assert (i + 1) * y.stride == i * y.stride + y.stride;
  }

  ghost predicate IsObj(y: Layout, b: nat, o: nat) { exists i: nat :: i < y.nobjs && o == Obj(y, b, i) }

  datatype Header = Header(inuse: int, free: nat)

  datatype Pool = Pool(slabs: seq<nat>, info: map<nat, Header>, ctl: map<nat, Ctl>)

  // The free chain of a slab holds distinct objects of it, all that are not in use.
  ghost predicate SlabOk(y: Layout, p: Pool, b: nat, l: seq<nat>)
  {
    && b in p.info && b > 0 && IsChain(p.ctl, p.info[b].free, l) && NoDup(l) && |l| + p.info[b].inuse == y.nobjs
    && (forall o :: o in l ==> IsObj(y, b, o))
    && (forall o :: IsObj(y, b, o) ==> o in p.ctl && (o in l || p.ctl[o] == InSlab(b)))
  }

  ghost predicate Apart(y: Layout, b: nat, c: nat) { b + y.span <= c || c + y.span <= b }

  ghost predicate PoolOk(y: Layout, p: Pool, lists: map<nat, seq<nat>>)
  {
    && LayoutOk(y) && NoDup(p.slabs)
    && (forall b :: b in p.slabs ==> b in lists && b in p.info && SlabOk(y, p, b, lists[b]))
    && (forall b, c :: b in p.slabs && c in p.slabs && b != c ==> Apart(y, b, c))
  }

  // The objects in use.
  ghost predicate Live(y: Layout, p: Pool, o: nat)
  {
    exists b :: b in p.slabs && IsObj(y, b, o) && o in p.ctl && p.ctl[o] == InSlab(b)
  }

  // Objects of different slabs are different, by more than their size.
  lemma SlabsApart(y: Layout, b: nat, c: nat, o: nat, q: nat)
    requires LayoutOk(y) && Apart(y, b, c) && IsObj(y, b, o) && IsObj(y, c, q)
    ensures o + y.stride <= q || q + y.stride <= o
  {
    var i: nat :| i < y.nobjs && o == Obj(y, b, i);
    var j: nat :| j < y.nobjs && q == Obj(y, c, j);
    ObjIn(y, b, i);
    ObjIn(y, c, j);
  }

  // A slab that a change of one control word does not concern.
  lemma SlabFrame(y: Layout, p: Pool, p': Pool, b: nat, l: seq<nat>)
    requires SlabOk(y, p, b, l) && b in p'.info && p'.info[b] == p.info[b]
    requires forall o :: IsObj(y, b, o) ==> o in p'.ctl && p'.ctl[o] == p.ctl[o]
    ensures SlabOk(y, p', b, l)
  {
    hide IsObj;
    ChainFrame(p.ctl, p'.ctl, p.info[b].free, l);
  }

  // ---------- taking and giving back an object ----------

  function Taken(p: Pool, b: nat): Pool
    requires b in p.info && p.info[b].free in p.ctl && p.ctl[p.info[b].free].Next?
  {
    var o := p.info[b].free;
    p.(info := p.info[b := Header(p.info[b].inuse + 1, p.ctl[o].next)], ctl := p.ctl[o := InSlab(b)])
  }

  // The slab it is taken from, and the others.
  lemma TakenSlab(y: Layout, p: Pool, b: nat, l: seq<nat>)
    requires SlabOk(y, p, b, l) && p.info[b].inuse < y.nobjs
    ensures l != [] && p.info[b].free == l[0] && l[0] in p.ctl && p.ctl[l[0]].Next? && IsObj(y, b, l[0])
    ensures SlabOk(y, Taken(p, b), b, l[1..])
  {
    hide IsObj;
    var o := l[0];
    assert forall q :: q in l <==> q == o || q in l[1..];
    assert o !in l[1..];
    ChainFrame(p.ctl, Taken(p, b).ctl, p.ctl[o].next, l[1..]);
  }

  lemma OtherSlab(y: Layout, p: Pool, p': Pool, b: nat, o: nat, c: nat, l: seq<nat>)
    requires LayoutOk(y) && Apart(y, b, c) && IsObj(y, b, o) && SlabOk(y, p, c, l) && c in p'.info
    requires p'.info[c] == p.info[c]
    requires p'.ctl.Keys == p.ctl.Keys && forall q :: q in p.ctl && q != o ==> p'.ctl[q] == p.ctl[q]
    ensures SlabOk(y, p', c, l)
  {
    forall q | IsObj(y, c, q) ensures q != o {
      SlabsApart(y, b, c, o, q);
    }
    hide IsObj;
    SlabFrame(y, p, p', c, l);
  }

  // slab_obj_alloc hands out an object that is not in use, and it alone is in use then that
  // was not before.
  lemma TakenOk(y: Layout, p: Pool, lists: map<nat, seq<nat>>, b: nat)
    requires PoolOk(y, p, lists) && b in p.slabs && p.info[b].inuse < y.nobjs
    ensures var o := p.info[b].free;
            && o in p.ctl && p.ctl[o].Next? && IsObj(y, b, o) && !Live(y, p, o) && lists[b] != []
            && PoolOk(y, Taken(p, b), lists[b := lists[b][1..]])
            && forall q :: Live(y, Taken(p, b), q) <==> Live(y, p, q) || q == o
  {
    hide SlabOk, IsObj, Apart;
    var l := lists[b];
    TakenSlab(y, p, b, l);
    var o, p' := l[0], Taken(p, b);
    forall c | c in p'.slabs ensures c in lists[b := l[1..]] && c in p'.info
        && SlabOk(y, p', c, lists[b := l[1..]][c]) {
      if c != b { OtherSlab(y, p, p', b, o, c, lists[c]); }
    }
    forall q ensures Live(y, p', q) <==> Live(y, p, q) || q == o {
      if q != o { LiveSame(y, p, p', q); } else { assert IsObj(y, b, o) && p'.ctl[o] == InSlab(b); }
    }
  }

  lemma LiveSame(y: Layout, p: Pool, p': Pool, q: nat)
    requires p'.slabs == p.slabs && (q in p'.ctl <==> q in p.ctl) && (q in p.ctl ==> p'.ctl[q] == p.ctl[q])
    ensures Live(y, p', q) <==> Live(y, p, q)
  {
    hide IsObj;
  }

  function Given(p: Pool, o: nat): Pool
    requires o in p.ctl && p.ctl[o].InSlab? && p.ctl[o].slab in p.info
  {
    var b := p.ctl[o].slab;
    p.(info := p.info[b := Header(p.info[b].inuse - 1, o)], ctl := p.ctl[o := Next(p.info[b].free)])
  }

  lemma GivenSlab(y: Layout, p: Pool, b: nat, l: seq<nat>, o: nat)
    requires SlabOk(y, p, b, l) && IsObj(y, b, o) && o != 0 && o in p.ctl && p.ctl[o] == InSlab(b)
    ensures o !in l && SlabOk(y, Given(p, o), b, [o] + l)
  {
    hide IsObj;
    ChainLinks(p.ctl, p.info[b].free, l);
    ChainFrame(p.ctl, Given(p, o).ctl, p.info[b].free, l);
    assert ([o] + l)[1..] == l;
    assert forall q :: q in [o] + l <==> q == o || q in l;
  }

  // slab_obj_free: the object and no other stops being in use.
  lemma GivenOk(y: Layout, p: Pool, lists: map<nat, seq<nat>>, o: nat)
    requires PoolOk(y, p, lists) && Live(y, p, o)
    ensures o in p.ctl && p.ctl[o].InSlab? && p.ctl[o].slab in p.info && p.ctl[o].slab in lists
    ensures var b := p.ctl[o].slab; PoolOk(y, Given(p, o), lists[b := [o] + lists[b]])
    ensures forall q :: Live(y, Given(p, o), q) <==> Live(y, p, q) && q != o
  {
    hide SlabOk, IsObj, Apart;
    var b :| b in p.slabs && IsObj(y, b, o) && o in p.ctl && p.ctl[o] == InSlab(b);
    SlabKnown(y, p, b, lists[b], o);
    GivenSlab(y, p, b, lists[b], o);
    var p' := Given(p, o);
    var lists' := lists[b := [o] + lists[b]];
    forall c | c in p'.slabs ensures c in lists' && c in p'.info && SlabOk(y, p', c, lists'[c]) {
      if c != b { OtherSlab(y, p, p', b, o, c, lists[c]); }
    }
    forall q ensures Live(y, p', q) <==> Live(y, p, q) && q != o {
      if q != o { LiveSame(y, p, p', q); }
    }
  }

  lemma SlabKnown(y: Layout, p: Pool, b: nat, l: seq<nat>, o: nat)
    requires LayoutOk(y) && SlabOk(y, p, b, l) && IsObj(y, b, o)
    ensures b in p.info && o != 0
  {
    var i: nat :| i < y.nobjs && o == Obj(y, b, i);
    ObjIn(y, b, i);
  }

  // ---------- a new slab ----------

  // The objects of a slab from the i-th on, in order.
  ghost function ObjsFrom(y: Layout, b: nat, i: nat): seq<nat>
    decreases if i < y.nobjs then y.nobjs - i else 0
  {
    if i >= y.nobjs then [] else [Obj(y, b, i)] + ObjsFrom(y, b, i + 1)
  }

  // The control words of the first n objects lead from each to the next.
  ghost predicate LinkedUp(y: Layout, ctl: map<nat, Ctl>, b: nat, n: nat)
  {
    forall i: nat :: i < n ==> Obj(y, b, i) in ctl && ctl[Obj(y, b, i)] == Next(After(y, b, i))
  }

  // The address of the object after the i-th, or null.
  function After(y: Layout, b: nat, i: nat): nat { if i == y.nobjs - 1 then 0 else Obj(y, b, i + 1) }

  lemma {:induction false} LinkedChain(y: Layout, ctl: map<nat, Ctl>, b: nat, i: nat)
    requires LayoutOk(y) && b > 0 && i <= y.nobjs && LinkedUp(y, ctl, b, y.nobjs)
    ensures IsChain(ctl, if i == y.nobjs then 0 else Obj(y, b, i), ObjsFrom(y, b, i))
    ensures |ObjsFrom(y, b, i)| == y.nobjs - i && NoDup(ObjsFrom(y, b, i))
    ensures forall o :: o in ObjsFrom(y, b, i) <==> exists k: nat :: i <= k < y.nobjs && o == Obj(y, b, k)
    decreases y.nobjs - i
  {
    hide Obj;
    if i < y.nobjs {
      LinkedChain(y, ctl, b, i + 1);
      var r, o := ObjsFrom(y, b, i + 1), Obj(y, b, i);
      ObjIn(y, b, i);
      forall k: nat | i < k < y.nobjs ensures Obj(y, b, k) != o {
        ObjsApart(y, b, i, k);
      }
      assert ([o] + r)[1..] == r;
      assert o !in r;
      forall j, k | 0 <= j < k < |[o] + r| ensures ([o] + r)[j] != ([o] + r)[k] {
        assert ([o] + r)[k] == r[k - 1];
      }
      forall q ensures q in [o] + r <==> exists k: nat :: i <= k < y.nobjs && q == Obj(y, b, k) {
        assert q in [o] + r <==> q == o || q in r;
        if k: nat :| i <= k < y.nobjs && q == Obj(y, b, k) { assert k == i || i + 1 <= k < y.nobjs; }
      }
    }
  }

  ghost function Grown(p: Pool, b: nat, ctl: map<nat, Ctl>): Pool
  {
    Pool([b] + p.slabs, p.info[b := Header(0, b)], ctl)
  }

  // _slab_allocator_grow, given pages that no slab has: the new slab is all free.
  lemma GrownOk(y: Layout, p: Pool, lists: map<nat, seq<nat>>, b: nat, ctl: map<nat, Ctl>)
    requires PoolOk(y, p, lists) && b > 0 && (forall c :: c in p.slabs ==> Apart(y, b, c)) && b !in p.slabs
    requires LinkedUp(y, ctl, b, y.nobjs) && forall o :: o in p.ctl && !IsObj(y, b, o) ==>
               o in ctl && ctl[o] == p.ctl[o]
    ensures PoolOk(y, Grown(p, b, ctl), lists[b := ObjsFrom(y, b, 0)])
    ensures forall q :: Live(y, Grown(p, b, ctl), q) <==> Live(y, p, q)
  {
    hide Apart;
    var p', lists' := Grown(p, b, ctl), lists[b := ObjsFrom(y, b, 0)];
    assert forall c :: c in p'.slabs <==> c == b || c in p.slabs;
    GrownSlab(y, p', b);
    forall c | c in p.slabs ensures SlabOk(y, p', c, lists[c]) {
      GrownOther(y, p, p', b, c, lists[c]);
    }
    forall q ensures Live(y, p', q) <==> Live(y, p, q) {
      GrownLive(y, p, p', lists, b, q);
    }
    forall c, d | c in p'.slabs && d in p'.slabs && c != d ensures Apart(y, c, d) {
      ApartBoth(y, c, d);
    }
  }

  lemma ApartBoth(y: Layout, c: nat, d: nat)
    ensures Apart(y, c, d) == Apart(y, d, c)
  {
  }

  lemma GrownSlab(y: Layout, p: Pool, b: nat)
    requires LayoutOk(y) && b > 0 && LinkedUp(y, p.ctl, b, y.nobjs) && b in p.info && p.info[b] == Header(0, b)
    ensures SlabOk(y, p, b, ObjsFrom(y, b, 0))
  {
    LinkedChain(y, p.ctl, b, 0);
    assert Obj(y, b, 0) == b;
    hide Obj;
    forall o | IsObj(y, b, o) ensures o in p.ctl && o in ObjsFrom(y, b, 0) {
    }
  }

  lemma GrownOther(y: Layout, p: Pool, p': Pool, b: nat, c: nat, l: seq<nat>)
    requires LayoutOk(y) && Apart(y, b, c) && b != c && SlabOk(y, p, c, l) && c in p'.info && p'.info[c] == p.info[c]
    requires forall o :: o in p.ctl && !IsObj(y, b, o) ==> o in p'.ctl && p'.ctl[o] == p.ctl[o]
    ensures SlabOk(y, p', c, l)
  {
    forall q | IsObj(y, c, q) ensures !IsObj(y, b, q) {
      if IsObj(y, b, q) { SlabsApart(y, b, c, q, q); }
    }
    hide IsObj;
    SlabFrame(y, p, p', c, l);
  }

  lemma LinkedNext(y: Layout, ctl: map<nat, Ctl>, b: nat, q: nat)
    requires LinkedUp(y, ctl, b, y.nobjs) && IsObj(y, b, q)
    ensures q in ctl && ctl[q].Next?
  {
    hide Obj;
    var i: nat :| i < y.nobjs && q == Obj(y, b, i);
  }

  lemma GrownLive(y: Layout, p: Pool, p': Pool, lists: map<nat, seq<nat>>, b: nat, q: nat)
    requires PoolOk(y, p, lists) && b > 0 && (forall c :: c in p.slabs ==> Apart(y, b, c)) && b !in p.slabs
    requires p'.slabs == [b] + p.slabs && LinkedUp(y, p'.ctl, b, y.nobjs)
    requires forall o :: o in p.ctl && !IsObj(y, b, o) ==> o in p'.ctl && p'.ctl[o] == p.ctl[o]
    ensures Live(y, p', q) <==> Live(y, p, q)
  {
    hide Obj, Apart, IsChain;
    if IsObj(y, b, q) {
      LinkedNext(y, p'.ctl, b, q);
      forall c | c in p.slabs ensures !IsObj(y, c, q) {
        if IsObj(y, c, q) { SlabsApart(y, b, c, q, q); }
      }
    } else {
      forall c | c in p.slabs && IsObj(y, c, q) ensures q in p.ctl { assert SlabOk(y, p, c, lists[c]); }
    }
  }

  // ---------- reclaiming slabs that are not in use ----------

  // What the walk over one cache's slabs leaves, the pages released so far, and whether the
  // target has been met.
  function Sweep(slabs: seq<nat>, info: map<nat, Header>, npages: nat, target: int, freed: nat): (seq<nat>, nat, bool)
  {
    if slabs == [] then ([], freed, false) else
      var idle := slabs[0] in info && info[slabs[0]].inuse == 0;
      var f := if idle then freed + npages else freed;
      var kept := if idle then [] else [slabs[0]];
      if target > 0 && f >= target then (kept + slabs[1..], f, true) else
        var (k, g, met) := Sweep(slabs[1..], info, npages, target, f);
        (kept + k, g, met)
  }

  // Only slabs with nothing in use go, each adds its pages to the count, and it ends early
  // exactly if the target is met, with no slab more than it takes.
  lemma SweepIs(slabs: seq<nat>, info: map<nat, Header>, npages: nat, target: int, freed: nat)
    requires NoDup(slabs) && (forall b :: b in slabs ==> b in info) && (target > 0 ==> freed < target)
    ensures var (kept, g, met) := Sweep(slabs, info, npages, target, freed);
            && NoDup(kept) && (forall b :: b in kept ==> b in slabs)
            && (forall b :: b in slabs && b !in kept ==> info[b].inuse == 0)
            && |kept| <= |slabs| && g == freed + Pages(npages, |slabs| - |kept|)
            && (met <==> target > 0 && g >= target) && (met ==> g < target + npages)
            && (!met ==> forall b :: b in kept ==> info[b].inuse != 0)
  {
    hide Sweep, Pages, NoDup;
    SweepSlabs(slabs, info, npages, target, freed);
    SweepCount(slabs, info, npages, target, freed);
  }

  // The slabs that are kept are some of them, and the others have nothing in use.
  ghost predicate SweptTo(slabs: seq<nat>, kept: seq<nat>, info: map<nat, Header>, all: bool)
  {
    && NoDup(kept) && (forall b :: b in kept ==> b in slabs)
    && (forall b :: b in slabs && b !in kept ==> b in info && info[b].inuse == 0)
    && (all ==> forall b :: b in kept ==> b in info && info[b].inuse != 0)
  }

  lemma ConsIs(b: nat, l: seq<nat>)
    ensures forall c :: c in [b] + l <==> c == b || c in l
    ensures NoDup([b] + l) <==> b !in l && NoDup(l)
  {
    var r := [b] + l;
    assert forall i :: 0 <= i < |l| ==> r[i + 1] == l[i];
    if NoDup(r) {
      forall i | 0 <= i < |l| ensures l[i] != b { assert r[0] != r[i + 1]; }
      forall i, j | 0 <= i < j < |l| ensures l[i] != l[j] { assert r[i + 1] != r[j + 1]; }
    }
  }

  lemma SweptCons(slabs: seq<nat>, kept: seq<nat>, info: map<nat, Header>, all: bool)
    requires slabs != [] && NoDup(slabs) && slabs[0] in info && SweptTo(slabs[1..], kept, info, all)
    ensures SweptTo(slabs, (if info[slabs[0]].inuse == 0 then [] else [slabs[0]]) + kept, info, all)
  {
    hide NoDup;
    var b, rest := slabs[0], slabs[1..];
    assert slabs == [b] + rest;
    ConsIs(b, rest);
    ConsIs(b, kept);
    assert [] + kept == kept;
  }

  lemma SweptRest(slabs: seq<nat>, info: map<nat, Header>)
    requires NoDup(slabs)
    ensures SweptTo(slabs, slabs, info, false)
  {
  }

  lemma {:induction false} SweepSlabs(slabs: seq<nat>, info: map<nat, Header>, npages: nat, target: int, freed: nat)
    requires NoDup(slabs) && (forall b :: b in slabs ==> b in info)
    ensures var (kept, g, met) := Sweep(slabs, info, npages, target, freed); SweptTo(slabs, kept, info, !met)
  {
    if slabs == [] {
    } else {
      hide SweptTo;
      var b, rest := slabs[0], slabs[1..];
      var f := if info[b].inuse == 0 then freed + npages else freed;
      if target > 0 && f >= target {
        SweptRest(rest, info);
        SweptCons(slabs, rest, info, false);
      } else {
        SweepSlabs(rest, info, npages, target, f);
        var (k, g, met) := Sweep(rest, info, npages, target, f);
        SweptCons(slabs, k, info, !met);
      }
    }
  }

  lemma {:induction false} SweepCount(slabs: seq<nat>, info: map<nat, Header>, npages: nat, target: int, freed: nat)
    requires target > 0 ==> freed < target
    ensures var (kept, g, met) := Sweep(slabs, info, npages, target, freed);
            && |kept| <= |slabs| && g == freed + Pages(npages, |slabs| - |kept|)
            && (met <==> target > 0 && g >= target) && (met ==> g < target + npages)
  {
    hide Pages;
    PagesSteps(npages, 0);
    if slabs != [] {
      var b, rest := slabs[0], slabs[1..];
      var idle := b in info && info[b].inuse == 0;
      var f := if idle then freed + npages else freed;
      if !(target > 0 && f >= target) {
        SweepCount(rest, info, npages, target, f);
        PagesSteps(npages, |rest| - |Sweep(rest, info, npages, target, f).0|);
      }
    }
  }

  // The pages of n slabs.
  function Pages(npages: nat, n: nat): nat { npages * n }

  lemma PagesSteps(npages: nat, n: nat)
    ensures Pages(npages, 0) == 0 && Pages(npages, 1) == npages && Pages(npages, n + 1) == Pages(npages, n) + npages
  {
  }

  // Releasing slabs with nothing in use takes no object that is in use.
  lemma SweptOk(y: Layout, p: Pool, lists: map<nat, seq<nat>>, kept: seq<nat>)
    requires PoolOk(y, p, lists) && NoDup(kept) && (forall b :: b in kept ==> b in p.slabs)
    requires forall b :: b in p.slabs && b !in kept ==> p.info[b].inuse == 0
    ensures PoolOk(y, p.(slabs := kept), lists)
    ensures forall o :: Live(y, p.(slabs := kept), o) <==> Live(y, p, o)
  {
    hide Obj, IsObj, Apart;
    var p' := p.(slabs := kept);
    forall b | b in p'.slabs ensures SlabOk(y, p', b, lists[b]) {
      SlabFrame(y, p, p', b, lists[b]);
    }
    forall o | Live(y, p, o) ensures Live(y, p', o) {
      var b :| b in p.slabs && IsObj(y, b, o) && o in p.ctl && p.ctl[o] == InSlab(b);
      BusySlab(y, p, b, lists[b], o);
    }
  }

  // A slab with an object in use has a count that is not zero.
  lemma BusySlab(y: Layout, p: Pool, b: nat, l: seq<nat>, o: nat)
    requires LayoutOk(y) && SlabOk(y, p, b, l) && IsObj(y, b, o) && p.ctl[o] == InSlab(b)
    ensures p.info[b].inuse != 0
  {
    ChainLinks(p.ctl, p.info[b].free, l);
    assert o !in l;
    if p.info[b].inuse == 0 { AllListed(y, b, l, o); }
  }

  // As many distinct objects as a slab has are all its objects.
  lemma AllListed(y: Layout, b: nat, l: seq<nat>, o: nat)
    requires LayoutOk(y) && NoDup(l) && |l| == y.nobjs && (forall q :: q in l ==> IsObj(y, b, q)) && IsObj(y, b, o)
    ensures o in l
  {
    var s, all := SetOf(l), ObjSet(y, b, y.nobjs);
    SetSize(l);
    ObjSetSize(y, b, y.nobjs);
    assert s <= all;
    SubsetSame(s, all);
    var i: nat :| i < y.nobjs && o == Obj(y, b, i);
    assert o in all;
  }

  ghost function SetOf(l: seq<nat>): set<nat> { set q | q in l }

  ghost function ObjSet(y: Layout, b: nat, n: nat): set<nat> { set i: nat | i < n :: Obj(y, b, i) }

  lemma {:induction false} SetSize(l: seq<nat>)
    requires NoDup(l)
    ensures |SetOf(l)| == |l|
  {
    if l != [] {
      SetSize(l[1..]);
      assert SetOf(l) == SetOf(l[1..]) + {l[0]};
      assert l[0] !in l[1..];
    }
  }

  lemma {:induction false} ObjSetSize(y: Layout, b: nat, n: nat)
    requires LayoutOk(y) && n <= y.nobjs
    ensures |ObjSet(y, b, n)| <= n
  {
    hide Obj;
    if n > 0 {
      ObjSetSize(y, b, n - 1);
      assert ObjSet(y, b, n) == ObjSet(y, b, n - 1) + {Obj(y, b, n - 1)};
    }
  }

  lemma SubsetSame(s: set<nat>, t: set<nat>)
    requires s <= t && |t| <= |s|
    ensures s == t
  {
    var d := t - s;
    assert t == s + d && |t| == |s| + |d|;
  }

  // ---------- the caches ----------

  datatype Cache = Cache(y: Layout, npages: nat, pool: Pool)

  // A slab of one cache at b, and one of another at c.
  ghost predicate Clear(y: Layout, b: nat, z: Layout, c: nat) { b + y.span <= c || c + z.span <= b }

  ghost predicate Separate(c: Cache, d: Cache)
  {
    forall a, b :: a in c.pool.slabs && b in d.pool.slabs ==> Clear(c.y, a, d.y, b)
  }

  // Slabs of different caches do not overlap.
  ghost predicate AllSeparate(caches: seq<Cache>)
  {
    forall j, k :: 0 <= j < |caches| && 0 <= k < |caches| && j != k ==> Separate(caches[j], caches[k])
  }

  // Pages at b that no slab of any cache has, for a slab of cache k.
  ghost predicate Unused(caches: seq<Cache>, k: nat, b: nat)
    requires k < |caches|
  {
    b > 0 && forall j, c :: 0 <= j < |caches| && c in caches[j].pool.slabs ==> Clear(caches[k].y, b, caches[j].y, c)
  }

  // So objects in use of different caches do not overlap.
  lemma CachesApart(c: Cache, d: Cache, o: nat, q: nat)
    requires LayoutOk(c.y) && LayoutOk(d.y) && Separate(c, d) && Live(c.y, c.pool, o) && Live(d.y, d.pool, q)
    ensures o + c.y.stride <= q || q + d.y.stride <= o
  {
    var a :| a in c.pool.slabs && IsObj(c.y, a, o);
    var b :| b in d.pool.slabs && IsObj(d.y, b, q);
    assert Clear(c.y, a, d.y, b);
    var i: nat :| i < c.y.nobjs && o == Obj(c.y, a, i);
    var j: nat :| j < d.y.nobjs && q == Obj(d.y, b, j);
    ObjIn(c.y, a, i);
    ObjIn(d.y, b, j);
  }

  // One cache changes.
  lemma UpdateSeparate(caches: seq<Cache>, k: nat, p: Pool)
    requires AllSeparate(caches) && k < |caches|
    requires forall b :: b in p.slabs ==> b in caches[k].pool.slabs || Unused(caches, k, b)
    ensures AllSeparate(caches[k := caches[k].(pool := p)])
  {
    hide Unused, Clear;
    var c, r := caches[k], caches[k := caches[k].(pool := p)];
    forall i, j | 0 <= i < |r| && 0 <= j < |r| && i != j ensures Separate(r[i], r[j]) {
      forall a, b | a in r[i].pool.slabs && b in r[j].pool.slabs ensures Clear(r[i].y, a, r[j].y, b) {
        if i == k {
          if a in c.pool.slabs { assert Separate(c, caches[j]); } else { UnusedClear(caches, k, a, j, b); }
        } else if j == k {
          if b in c.pool.slabs { assert Separate(caches[i], c); } else { UnusedClear(caches, k, b, i, a); }
        } else {
          assert Separate(caches[i], caches[j]);
        }
      }
    }
  }

  lemma UnusedClear(caches: seq<Cache>, k: nat, b: nat, j: nat, c: nat)
    requires k < |caches| && Unused(caches, k, b) && j < |caches| && c in caches[j].pool.slabs
    ensures Clear(caches[k].y, b, caches[j].y, c) && Clear(caches[j].y, c, caches[k].y, b)
  {
  }

  lemma UnusedApart(caches: seq<Cache>, k: nat, b: nat)
    requires k < |caches| && Unused(caches, k, b) && LayoutOk(caches[k].y)
    ensures b !in caches[k].pool.slabs && forall c :: c in caches[k].pool.slabs ==> Apart(caches[k].y, b, c)
  {
    assert caches[k].y.span > 0 by { MulMono(1, caches[k].y.nobjs, caches[k].y.stride); }
    forall c | c in caches[k].pool.slabs ensures Apart(caches[k].y, b, c) && c != b {
      UnusedClear(caches, k, b, k, c);
    }
  }

  class Caches {
    var caches: seq<Cache>
    // The free chains of the slabs of each cache.
    ghost var lists: seq<map<nat, seq<nat>>>

    ghost predicate Valid()
      reads this
    {
      && |lists| == |caches| && (forall k :: 0 <= k < |caches| ==> PoolOk(caches[k].y, caches[k].pool, lists[k]))
      && AllSeparate(caches)
    }

    constructor ()
      ensures Valid() && caches == []
    {
      caches, lists := [], [];
    }

    // The part of _allocator_init that concerns the list of caches.
    method AddCache(y: Layout, npages: nat)
      requires Valid() && LayoutOk(y)
      modifies this
      ensures Valid() && caches == [Cache(y, npages, Pool([], map[], map[]))] + old(caches)
    {
      caches := [Cache(y, npages, Pool([], map[], map[]))] + caches;
      lists := [map[]] + lists;
    }

    method Update(k: nat, p: Pool, ghost l: map<nat, seq<nat>>)
      requires Valid() && k < |caches| && PoolOk(caches[k].y, p, l)
      requires forall b :: b in p.slabs ==> b in caches[k].pool.slabs || Unused(caches, k, b)
      modifies this
      ensures Valid() && caches == old(caches)[k := old(caches)[k].(pool := p)] && lists == old(lists)[k := l]
    {
      hide PoolOk, AllSeparate, Unused;
      UpdateSeparate(caches, k, p);
      caches := caches[k := caches[k].(pool := p)];
      lists := lists[k := l];
    }

    // _slab_allocator_grow, with the pages that page_alloc_n gives.
    method Grow(k: nat, addr: Option<nat>) returns (ok: bool)
      requires Valid() && k < |caches|
      requires addr.Some? ==> Unused(caches, k, addr.value)
      modifies this
      ensures Valid() && ok == addr.Some? && |caches| == |old(caches)|
      ensures !ok ==> caches == old(caches)
      ensures ok ==> && caches == old(caches)[k := old(caches)[k].(pool := caches[k].pool)]
                     && caches[k].pool.slabs == [addr.value] + old(caches)[k].pool.slabs
                     && addr.value in caches[k].pool.info && caches[k].pool.info[addr.value] == Header(0, addr.value)
                     && forall o :: Live(caches[k].y, caches[k].pool, o) <==> Live(caches[k].y, old(caches)[k].pool, o)
    {
      hide PoolOk, Live, IsObj, LinkedUp, Obj, Apart, AllSeparate, Clear;
      ok := addr.Some?;
      if ok {
        var y, p, b := caches[k].y, caches[k].pool, addr.value;
        assert LayoutOk(y) by { PoolLayout(y, p, lists[k]); }
        UnusedApart(caches, k, b);
        var ctl := Link(y, p.ctl, b);
        GrownOk(y, p, lists[k], b, ctl);
        Update(k, Pool([b] + p.slabs, p.info[b := Header(0, b)], ctl), lists[k][b := ObjsFrom(y, b, 0)]);
      }
    }

    // slab_obj_alloc, where `addr` is what page_alloc_n gives if it is asked.
    method ObjAlloc(k: nat, addr: Option<nat>) returns (obj: Option<nat>)
      requires Valid() && k < |caches|
      requires addr.Some? ==> Unused(caches, k, addr.value)
      modifies this
      ensures Valid() && |caches| == |old(caches)|
              && caches == old(caches)[k := old(caches)[k].(pool := caches[k].pool)]
      ensures obj.None? ==> addr.None? && caches == old(caches)
                            && forall b :: b in caches[k].pool.slabs ==>
                               b in caches[k].pool.info && caches[k].pool.info[b].inuse == caches[k].y.nobjs
      ensures obj.Some? ==> && !Live(caches[k].y, old(caches)[k].pool, obj.value)
                            && (exists b :: b in caches[k].pool.slabs && IsObj(caches[k].y, b, obj.value))
                            && forall o :: Live(caches[k].y, caches[k].pool, o) <==>
                               Live(caches[k].y, old(caches)[k].pool, o) || o == obj.value
      ensures obj.Some? ==>
                var was := old(caches)[k].pool;
                if forall b :: b in was.slabs ==> b in was.info && was.info[b].inuse == caches[k].y.nobjs
                then addr.Some? && caches[k].pool.slabs == [addr.value] + was.slabs && obj == addr
                else caches[k].pool.slabs == was.slabs && FirstFreeOf(was, caches[k].y.nobjs, obj.value)
    {
      hide PoolOk, Live, IsObj, Apart, AllSeparate, Unused;
      var i := FirstFree(k);
      if i == |caches[k].pool.slabs| {
        var ok := Grow(k, addr);
        if !ok {
          return None;
        }
        PoolSlabs(caches[k].y, caches[k].pool, lists[k]);
        i := 0;
      }
      var y, p := caches[k].y, caches[k].pool;
      PoolSlabs(y, p, lists[k]);
      var b := p.slabs[i];
      TakenOk(y, p, lists[k], b);
      obj := Some(p.info[b].free);
      Update(k, Taken(p, b), lists[k][b := lists[k][b][1..]]);
    }

    // The first slab with a free object.
    method FirstFree(k: nat) returns (i: nat)
      requires Valid() && k < |caches|
      ensures var p := caches[k].pool;
              && i <= |p.slabs|
              && (forall j :: 0 <= j < i ==> p.slabs[j] in p.info && p.info[p.slabs[j]].inuse == caches[k].y.nobjs)
              && (i < |p.slabs| ==> p.slabs[i] in p.info && p.info[p.slabs[i]].inuse < caches[k].y.nobjs)
    {
      hide PoolOk;
      var p := caches[k].pool;
      PoolSlabs(caches[k].y, p, lists[k]);
      i := 0;
      while i < |p.slabs| && p.info[p.slabs[i]].inuse == caches[k].y.nobjs
        invariant 0 <= i <= |p.slabs|
        invariant forall j :: 0 <= j < i ==> p.slabs[j] in p.info && p.info[p.slabs[j]].inuse == caches[k].y.nobjs
      {
        i := i + 1;
      }
    }

    // slab_obj_free, of an object that is in use
    method ObjFree(k: nat, obj: nat)
      requires Valid() && k < |caches| && Live(caches[k].y, caches[k].pool, obj)
      modifies this
      ensures Valid() && |caches| == |old(caches)|
              && caches == old(caches)[k := old(caches)[k].(pool := caches[k].pool)]
      ensures caches[k].pool.slabs == old(caches)[k].pool.slabs
      ensures forall o :: Live(caches[k].y, caches[k].pool, o) <==>
                Live(caches[k].y, old(caches)[k].pool, o) && o != obj
    {
      hide PoolOk, Live, AllSeparate;
      var y, p := caches[k].y, caches[k].pool;
      GivenOk(y, p, lists[k], obj);
      var b := p.ctl[obj].slab;
      Update(k, Given(p, obj), lists[k][b := [obj] + lists[k][b]]);
    }

    // slab_allocators_reclaim. What is in use stays, in every cache; it stops once the target
    // is met, and otherwise no slab is left with nothing in use.
    method Reclaim(target: int) returns (freed: nat)
      requires Valid()
      modifies this
      ensures Valid() && |caches| == |old(caches)| && freed == TotalPages(old(caches)) - TotalPages(caches)
      ensures forall k :: 0 <= k < |caches| ==> SameUse(old(caches)[k], caches[k])
      ensures if target > 0 && freed >= target then exists k :: 0 <= k < |caches| && freed < target + caches[k].npages
              else forall k :: 0 <= k < |caches| ==> NoneIdle(caches[k].pool)
    {
      hide PoolOk, SameUse, NoneIdle, AllSeparate;
      freed := 0;
      ghost var was := caches;
      var k := 0;
      forall j | 0 <= j < |caches| ensures SameUse(was[j], caches[j]) {
        SameUseSelf(caches[j]);
      }
      while k < |caches|
        invariant 0 <= k <= |caches| && Valid() && |caches| == |was| && (target > 0 ==> freed < target)
        invariant freed == TotalPages(was) - TotalPages(caches)
        invariant forall j :: 0 <= j < |caches| ==> SameUse(was[j], caches[j])
        invariant forall j :: k <= j < |caches| ==> caches[j] == was[j]
        invariant forall j :: 0 <= j < k ==> NoneIdle(caches[j].pool)
      {
        var met;
        freed, met := ReclaimFrom(k, target, freed);
        if met {
          return;
        }
        k := k + 1;
      }
    }

    // One cache's part of it.
    method ReclaimFrom(k: nat, target: int, start: nat) returns (freed: nat, met: bool)
      requires Valid() && k < |caches| && (target > 0 ==> start < target)
      modifies this
      ensures Valid() && |caches| == |old(caches)| && caches == old(caches)[k := caches[k]]
      ensures SameUse(old(caches)[k], caches[k]) && freed - start == TotalPages(old(caches)) - TotalPages(caches)
      ensures met <==> target > 0 && freed >= target
      ensures if met then freed < target + caches[k].npages else NoneIdle(caches[k].pool)
    {
      hide PoolOk, Live, Sweep, AllSeparate;
      var y, p, n := caches[k].y, caches[k].pool, caches[k].npages;
      ghost var before := caches;
      PoolSlabs(y, p, lists[k]);
      SweepIs(p.slabs, p.info, n, target, start);
      var kept;
      kept, freed, met := SweepCache(p, n, target, start);
      SweptOk(y, p, lists[k], kept);
      Update(k, p.(slabs := kept), lists[k]);
      TotalUpdate(before, k, caches[k]);
      PagesDiff(n, |p.slabs|, |kept|);
    }
  }

  // o is the first on the chain of the first slab that has a free object.
  ghost predicate FirstFreeOf(p: Pool, nobjs: nat, o: nat)
  {
    exists i :: && 0 <= i < |p.slabs| && p.slabs[i] in p.info && p.info[p.slabs[i]].inuse < nobjs
                && p.info[p.slabs[i]].free == o
                && forall j :: 0 <= j < i ==> p.slabs[j] in p.info && p.info[p.slabs[j]].inuse == nobjs
  }

  // An object given back is the next one that its slab hands out, and all is as it was.
  lemma GivenThenTaken(p: Pool, o: nat)
    requires o in p.ctl && p.ctl[o].InSlab? && p.ctl[o].slab in p.info
    ensures var b, q := p.ctl[o].slab, Given(p, o);
            q.info[b].free == o && q.ctl[o].Next? && Taken(q, b) == p
  {
    var b, q := p.ctl[o].slab, Given(p, o);
    assert Taken(q, b).info == p.info && Taken(q, b).ctl == p.ctl;
  }

  // The same cache less some slabs, with the same objects in use.
  ghost predicate SameUse(c: Cache, d: Cache)
  {
    && d == c.(pool := c.pool.(slabs := d.pool.slabs)) && (forall b :: b in d.pool.slabs ==> b in c.pool.slabs)
    && forall o :: Live(d.y, d.pool, o) <==> Live(c.y, c.pool, o)
  }

  lemma SameUseSelf(c: Cache)
    ensures SameUse(c, c)
  {
    hide Live;
  }

  // Every slab has an object in use.
  ghost predicate NoneIdle(p: Pool) { forall b :: b in p.slabs ==> b in p.info && p.info[b].inuse != 0 }

  // The walk over the slabs of one cache.
  method SweepCache(p: Pool, npages: nat, target: int, start: nat) returns (kept: seq<nat>, freed: nat, met: bool)
    requires forall b :: b in p.slabs ==> b in p.info
    ensures var s := Sweep(p.slabs, p.info, npages, target, start); kept == s.0 && freed == s.1 && met == s.2
  {
    kept, freed, met := [], start, false;
    var i := 0;
    ghost var end := Sweep(p.slabs, p.info, npages, target, start);
    assert p.slabs[0..] == p.slabs;
    hide Sweep;
    while i < |p.slabs|
      invariant 0 <= i <= |p.slabs| && !met
      invariant end.0 == kept + Sweep(p.slabs[i..], p.info, npages, target, freed).0
      invariant end.1 == Sweep(p.slabs[i..], p.info, npages, target, freed).1
      invariant end.2 == Sweep(p.slabs[i..], p.info, npages, target, freed).2
    {
      var b := p.slabs[i];
      SweepTurn(p.slabs, i, p.info, npages, target, freed);
      ghost var f := if p.info[b].inuse == 0 then freed + npages else freed;
      Joined(kept, b, p.slabs[i + 1..]);
      Joined(kept, b, Sweep(p.slabs[i + 1..], p.info, npages, target, f).0);
      if p.info[b].inuse == 0 {
        freed := freed + npages;
      } else {
        kept := kept + [b];
      }
      if target > 0 && freed >= target {
        kept, met := kept + p.slabs[i + 1..], true;
        return;
      }
      i := i + 1;
    }
    assert p.slabs[i..] == [];
    SweepNone(p.info, npages, target, freed);
    assert kept + [] == kept;
  }

  lemma Joined(kept: seq<nat>, b: nat, rest: seq<nat>)
    ensures kept + ([b] + rest) == kept + [b] + rest && kept + ([] + rest) == kept + rest
  {
    assert [] + rest == rest;
  }

  lemma SweepNone(info: map<nat, Header>, npages: nat, target: int, freed: nat)
    ensures Sweep([], info, npages, target, freed) == ([], freed, false)
  {
  }

  lemma SweepTurn(slabs: seq<nat>, i: nat, info: map<nat, Header>, npages: nat, target: int, freed: nat)
    requires i < |slabs| && slabs[i] in info
    ensures var s, idle := Sweep(slabs[i..], info, npages, target, freed), info[slabs[i]].inuse == 0;
            var f, kept := if idle then freed + npages else freed, if idle then [] else [slabs[i]];
            if target > 0 && f >= target then s.0 == kept + slabs[i + 1..] && s.1 == f && s.2
            else var r := Sweep(slabs[i + 1..], info, npages, target, f); s.0 == kept + r.0 && s.1 == r.1 && s.2 == r.2
  {
    assert slabs[i..][0] == slabs[i] && slabs[i..][1..] == slabs[i + 1..];
  }

  ghost function TotalPages(caches: seq<Cache>): nat
  {
    if caches == [] then 0 else Pages(caches[0].npages, |caches[0].pool.slabs|) + TotalPages(caches[1..])
  }

  lemma {:induction false} TotalUpdate(caches: seq<Cache>, k: nat, c: Cache)
    requires k < |caches|
    ensures TotalPages(caches[k := c]) ==
            TotalPages(caches) - Pages(caches[k].npages, |caches[k].pool.slabs|) + Pages(c.npages, |c.pool.slabs|)
  {
    hide Pages;
    if k > 0 {
      TotalUpdate(caches[1..], k - 1, c);
      assert caches[k := c][1..] == caches[1..][k - 1 := c];
    } else {
      assert caches[k := c][1..] == caches[1..];
    }
  }

  lemma PagesDiff(npages: nat, n: nat, m: nat)
    requires m <= n
    ensures Pages(npages, n) - Pages(npages, m) == Pages(npages, n - m)
  {
  }

  lemma PoolLayout(y: Layout, p: Pool, lists: map<nat, seq<nat>>)
    requires PoolOk(y, p, lists)
    ensures LayoutOk(y)
  {
  }

  lemma PoolSlabs(y: Layout, p: Pool, lists: map<nat, seq<nat>>)
    requires PoolOk(y, p, lists)
    ensures NoDup(p.slabs) && y.nobjs > 0
    ensures forall b :: b in p.slabs ==> b in p.info && b in lists && p.info[b].inuse <= y.nobjs
  {
    hide IsObj, IsChain;
  }

  // The loop of _slab_allocator_grow that links up the objects.
  method Link(y: Layout, ctl0: map<nat, Ctl>, b: nat) returns (ctl: map<nat, Ctl>)
    requires LayoutOk(y)
    ensures LinkedUp(y, ctl, b, y.nobjs)
    ensures forall o :: o in ctl0 && !IsObj(y, b, o) ==> o in ctl && ctl[o] == ctl0[o]
  {
    ctl := ctl0;
    var obj, i := b, 0;
    assert Obj(y, b, 0) == b;
    while i < y.nobjs - 1
      invariant 0 <= i < y.nobjs && obj == Obj(y, b, i) && LinkedUp(y, ctl, b, i)
      invariant forall o :: o in ctl0 && !IsObj(y, b, o) ==> o in ctl && ctl[o] == ctl0[o]
    {
      var next := obj + y.stride;
      assert next == Obj(y, b, i + 1) by { assert (i + 1) * y.stride == i * y.stride + y.stride; }
      LinkStep(y, ctl, b, i);
      assert IsObj(y, b, obj);
      ctl := ctl[obj := Next(next)];
      obj, i := next, i + 1;
    }
    LinkStep(y, ctl, b, i);
    assert IsObj(y, b, obj);
    ctl := ctl[obj := Next(0)];
  }

  lemma LinkStep(y: Layout, ctl: map<nat, Ctl>, b: nat, i: nat)
    requires LayoutOk(y) && i < y.nobjs && LinkedUp(y, ctl, b, i)
    ensures LinkedUp(y, ctl[Obj(y, b, i) := Next(After(y, b, i))], b, i + 1)
  {
    forall j: nat | j < i ensures Obj(y, b, j) != Obj(y, b, i) {
      ObjsApart(y, b, j, i);
    }
    hide Obj;
  }
}
