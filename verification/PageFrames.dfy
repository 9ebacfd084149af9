/**
 The resident page frames (kernel/mm/pframe.c): the hash chains, the allocated and pinned
 lists, and each object's list of resident pages with its count. A frame sits on one list
 of each kind, and which one follows from its identity and its pin count.
 */
module PageFrames {
  import opened Common
  import opened Lists

  type Fid = nat
  type ObjId = nat
  type Data = seq<bv8>

  datatype Frame = Frame(obj: ObjId, page: nat, pins: nat, dirty: bool, busy: bool, data: Data)

  datatype Obj = Obj(refs: int, nres: int, pages: seq<Fid>, shadowed: Option<ObjId>)

  datatype Cache = Cache(frames: map<Fid, Frame>, chains: seq<seq<Fid>>, objs: map<ObjId, Obj>, lru: seq<Fid>,
                         pinned: seq<Fid>)

  // hash_page, in 32-bit arithmetic
  function Hash(o: ObjId, page: nat, n: nat): (h: nat)
    requires n > 0
    ensures h < n
  {
    (o + page) % 0x1_0000_0000 % n
  }

  // ---------- a list of the frames of one kind ----------

  ghost predicate ListOf(l: seq<Fid>, frames: map<Fid, Frame>, kind: Frame -> bool)
  {
    NoDup(l) && forall f :: f in l <==> f in frames && kind(frames[f])
  }

  lemma ListAdd(l: seq<Fid>, frames: map<Fid, Frame>, f: Fid, x: Frame, kind: Frame -> bool)
    requires ListOf(l, frames, kind) && (f in frames ==> !kind(frames[f]))
    ensures kind(x) ==> ListOf([f] + l, frames[f := x], kind) && ListOf(l + [f], frames[f := x], kind)
    ensures !kind(x) ==> ListOf(l, frames[f := x], kind)
  {
    assert f !in l;
    assert forall g :: g in [f] + l <==> g == f || g in l;
    assert forall g :: g in l + [f] <==> g == f || g in l;
  }

  lemma ListDrop(l: seq<Fid>, frames: map<Fid, Frame>, f: Fid, kind: Frame -> bool)
    requires ListOf(l, frames, kind) && f in frames
    ensures kind(frames[f]) ==> ListOf(Without(l, f), frames - {f}, kind) && |Without(l, f)| == |l| - 1
    ensures !kind(frames[f]) ==> ListOf(l, frames - {f}, kind)
  {
    if kind(frames[f]) { WithoutIs(l, f); }
  }

  lemma ListChange(l: seq<Fid>, frames: map<Fid, Frame>, f: Fid, x: Frame, kind: Frame -> bool)
    requires ListOf(l, frames, kind) && f in frames && kind(frames[f])
    ensures kind(x) ==> ListOf(l, frames[f := x], kind)
    ensures !kind(x) ==> ListOf(Without(l, f), frames[f := x], kind) && |Without(l, f)| == |l| - 1
  {
    if !kind(x) { WithoutIs(l, f); }
  }

  lemma ListTouch(l: seq<Fid>, frames: map<Fid, Frame>, f: Fid, kind: Frame -> bool)
    requires ListOf(l, frames, kind) && f in l
    ensures ListOf(Without(l, f) + [f], frames, kind)
  {
    WithoutIs(l, f);
    assert forall g :: g in Without(l, f) + [f] <==> g == f || g in Without(l, f);
  }

  // ---------- the invariant ----------

  ghost function OfObj(o: ObjId): Frame -> bool { (x: Frame) => x.obj == o }
  ghost function InChain(h: nat, n: nat): Frame -> bool { (x: Frame) => n > 0 && Hash(x.obj, x.page, n) == h }
  ghost function Unpinned(): Frame -> bool { (x: Frame) => x.pins == 0 }
  ghost function Pinned(): Frame -> bool { (x: Frame) => x.pins > 0 }

  ghost predicate At(c: Cache, o: ObjId, p: nat, f: Fid)
  {
    f in c.frames && c.frames[f].obj == o && c.frames[f].page == p
  }

  // No identity is resident twice.
  ghost predicate Unique(c: Cache) { forall o, p, f, g :: At(c, o, p, f) && At(c, o, p, g) ==> f == g }

  ghost predicate ObjOk(c: Cache, o: ObjId)
    requires o in c.objs
  {
    ListOf(c.objs[o].pages, c.frames, OfObj(o)) && c.objs[o].nres == |c.objs[o].pages|
  }

  ghost predicate Chains(c: Cache)
  {
    |c.chains| > 0 && forall h :: 0 <= h < |c.chains| ==> ListOf(c.chains[h], c.frames, InChain(h, |c.chains|))
  }

  ghost predicate Objs(c: Cache)
  {
    (forall o :: o in c.objs ==> ObjOk(c, o)) && forall f :: f in c.frames ==> c.frames[f].obj in c.objs
  }

  ghost predicate Paging(c: Cache) { ListOf(c.lru, c.frames, Unpinned()) && ListOf(c.pinned, c.frames, Pinned()) }

  ghost predicate CacheOk(c: Cache) { Unique(c) && Chains(c) && Objs(c) && Paging(c) }

  // ---------- pframe_alloc ----------

  function Insert(c: Cache, f: Fid, o: ObjId, p: nat, data: Data): Cache
    requires |c.chains| > 0 && o in c.objs
  {
    var h := Hash(o, p, |c.chains|);
    Cache(c.frames[f := Frame(o, p, 0, false, false, data)],
          c.chains[h := [f] + c.chains[h]],
          c.objs[o := c.objs[o].(refs := c.objs[o].refs + 1, nres := c.objs[o].nres + 1,
                                 pages := [f] + c.objs[o].pages)],
          c.lru + [f],
          c.pinned)
  }

  lemma InsertOk(c: Cache, f: Fid, o: ObjId, p: nat, data: Data)
    requires CacheOk(c) && f !in c.frames && o in c.objs && forall g :: !At(c, o, p, g)
    ensures CacheOk(Insert(c, f, o, p, data))
  {
    hide Hash, ListOf;
    var r := Insert(c, f, o, p, data);
    var x := Frame(o, p, 0, false, false, data);
    ListAdd(c.lru, c.frames, f, x, Unpinned());
    ListAdd(c.pinned, c.frames, f, x, Pinned());
    forall h | 0 <= h < |r.chains| ensures ListOf(r.chains[h], r.frames, InChain(h, |r.chains|)) {
      ListAdd(c.chains[h], c.frames, f, x, InChain(h, |c.chains|));
    }
    forall q | q in r.objs ensures ObjOk(r, q) {
      assert ObjOk(c, q);
      ListAdd(c.objs[q].pages, c.frames, f, x, OfObj(q));
    }
    forall q, k, g, g' | At(r, q, k, g) && At(r, q, k, g') ensures g == g' {
      assert g != f ==> At(c, q, k, g);
      assert g' != f ==> At(c, q, k, g');
    }
  }

  // ---------- pframe_free, up to dropping the reference ----------

  function Delete(c: Cache, f: Fid): Cache
    requires |c.chains| > 0 && f in c.frames && c.frames[f].obj in c.objs
  {
    var x := c.frames[f];
    var h := Hash(x.obj, x.page, |c.chains|);
    Cache(c.frames - {f},
          c.chains[h := Without(c.chains[h], f)],
          c.objs[x.obj := c.objs[x.obj].(nres := c.objs[x.obj].nres - 1, pages := Without(c.objs[x.obj].pages, f))],
          Without(c.lru, f),
          c.pinned)
  }

  lemma DeleteOk(c: Cache, f: Fid)
    requires CacheOk(c) && f in c.frames && c.frames[f].pins == 0
    ensures c.frames[f].obj in c.objs && CacheOk(Delete(c, f))
  {
    hide Hash, ListOf;
    var r, x := Delete(c, f), c.frames[f];
    ListDrop(c.lru, c.frames, f, Unpinned());
    ListDrop(c.pinned, c.frames, f, Pinned());
    forall h | 0 <= h < |r.chains| ensures ListOf(r.chains[h], r.frames, InChain(h, |r.chains|)) {
      ListDrop(c.chains[h], c.frames, f, InChain(h, |c.chains|));
    }
    forall q | q in r.objs ensures ObjOk(r, q) {
      assert ObjOk(c, q);
      ListDrop(c.objs[q].pages, c.frames, f, OfObj(q));
    }
    forall q, k, g, g' | At(r, q, k, g) && At(r, q, k, g') ensures g == g' {
      assert At(c, q, k, g) && At(c, q, k, g');
    }
  }

  // ---------- the move of pframe_migrate, with its references ----------

  function Move(c: Cache, f: Fid, dest: ObjId): Cache
    requires |c.chains| > 0 && f in c.frames && c.frames[f].obj in c.objs && dest in c.objs && dest != c.frames[f].obj
  {
    var x := c.frames[f];
    var h, k := Hash(x.obj, x.page, |c.chains|), Hash(dest, x.page, |c.chains|);
    var chains := c.chains[h := Without(c.chains[h], f)];
    Cache(c.frames[f := x.(obj := dest)],
          chains[k := [f] + chains[k]],
          c.objs[x.obj := c.objs[x.obj].(refs := c.objs[x.obj].refs - 1, nres := c.objs[x.obj].nres - 1,
                                         pages := Without(c.objs[x.obj].pages, f))]
                [dest := c.objs[dest].(refs := c.objs[dest].refs + 1, nres := c.objs[dest].nres + 1,
                                       pages := [f] + c.objs[dest].pages)],
          c.lru,
          c.pinned)
  }

  lemma MoveChain(c: Cache, f: Fid, dest: ObjId, h: nat)
    requires Chains(c) && f in c.frames && c.frames[f].obj in c.objs && dest in c.objs && dest != c.frames[f].obj
    requires h < |c.chains|
    ensures ListOf(Move(c, f, dest).chains[h], Move(c, f, dest).frames, InChain(h, |c.chains|))
  {
    hide Hash, ListOf;
    var n, l, y := |c.chains|, c.chains[h], c.frames[f].(obj := dest);
    var kind := InChain(h, n);
    if !kind(c.frames[f]) {
      ListAdd(l, c.frames, f, y, kind);
    } else {
      ListChange(l, c.frames, f, y, kind);
      if kind(y) {
        ListDrop(l, c.frames, f, kind);
        ListAdd(Without(l, f), c.frames - {f}, f, y, kind);
        assert (c.frames - {f})[f := y] == c.frames[f := y];
      }
    }
  }

  lemma MoveOk(c: Cache, f: Fid, dest: ObjId)
    requires CacheOk(c) && f in c.frames && dest in c.objs && dest != c.frames[f].obj
    requires forall g :: !At(c, dest, c.frames[f].page, g)
    ensures c.frames[f].obj in c.objs && CacheOk(Move(c, f, dest))
  {
    hide Hash, ListOf;
    var r, x, n := Move(c, f, dest), c.frames[f], |c.chains|;
    var y := x.(obj := dest);
    if x.pins == 0 { ListChange(c.lru, c.frames, f, y, Unpinned()); ListAdd(c.pinned, c.frames, f, y, Pinned()); }
    else { ListChange(c.pinned, c.frames, f, y, Pinned()); ListAdd(c.lru, c.frames, f, y, Unpinned()); }
    forall h | 0 <= h < |r.chains| ensures ListOf(r.chains[h], r.frames, InChain(h, |r.chains|)) {
      MoveChain(c, f, dest, h);
    }
    forall q | q in r.objs ensures ObjOk(r, q) {
      assert ObjOk(c, q);
      if q == x.obj { ListChange(c.objs[q].pages, c.frames, f, y, OfObj(q)); }
      else { ListAdd(c.objs[q].pages, c.frames, f, y, OfObj(q)); }
    }
    forall q, k, g, g' | At(r, q, k, g) && At(r, q, k, g') ensures g == g' {
      assert g != f ==> At(c, q, k, g);
      assert g' != f ==> At(c, q, k, g');
    }
  }

  // ---------- the hash lookup ----------

  // What pframe_get_resident finds on a chain.
  function Search(l: seq<Fid>, frames: map<Fid, Frame>, o: ObjId, p: nat): Option<Fid>
    requires forall f :: f in l ==> f in frames
  {
    if l == [] then None
    else if frames[l[0]].obj == o && frames[l[0]].page == p then Some(l[0])
    else Search(l[1..], frames, o, p)
  }

  lemma {:induction false} SearchSome(l: seq<Fid>, frames: map<Fid, Frame>, o: ObjId, p: nat, f: Fid)
    requires forall g :: g in l ==> g in frames
    requires forall g :: g in l && frames[g].obj == o && frames[g].page == p ==> g == f
    ensures Search(l, frames, o, p) == if f in l && frames[f].obj == o && frames[f].page == p then Some(f) else None
  {
    if l != [] {
      SearchSome(l[1..], frames, o, p, f);
      assert forall g :: g in l <==> g == l[0] || g in l[1..];
    }
  }

  // The hash agrees with the map from identities to frames.
  lemma LookupIs(c: Cache, o: ObjId, p: nat, f: Fid)
    requires CacheOk(c)
    ensures var l := c.chains[Hash(o, p, |c.chains|)];
            && (forall g :: g in l ==> g in c.frames)
            && (At(c, o, p, f) <==> Search(l, c.frames, o, p) == Some(f))
            && (Search(l, c.frames, o, p).None? <==> forall g :: !At(c, o, p, g))
  {
    hide Hash, Objs, Paging;
    var n := |c.chains|;
    var h := Hash(o, p, n);
    var l := c.chains[h];
    assert ListOf(l, c.frames, InChain(h, n));
    assert forall g :: g in l <==> g in c.frames && InChain(h, n)(c.frames[g]);
    if g :| At(c, o, p, g) {
      assert InChain(h, n)(c.frames[g]);
      forall g' | g' in l && c.frames[g'].obj == o && c.frames[g'].page == p ensures g' == g {
        assert At(c, o, p, g');
      }
      SearchSome(l, c.frames, o, p, g);
    } else {
      assert forall g :: g in l ==> !At(c, o, p, g);
      SearchSome(l, c.frames, o, p, 0);
    }
  }

  // ---------- pinning, by its contract ----------

  function WithUnpin(c: Cache, f: Fid): Cache
    requires f in c.frames && c.frames[f].pins > 0
  {
    var x := c.frames[f].(pins := c.frames[f].pins - 1);
    if x.pins > 0 then c.(frames := c.frames[f := x])
    else c.(frames := c.frames[f := x], pinned := Without(c.pinned, f), lru := c.lru + [f])
  }

  function WithPin(c: Cache, f: Fid): Cache
    requires f in c.frames
  {
    var x := c.frames[f].(pins := c.frames[f].pins + 1);
    if x.pins > 1 then c.(frames := c.frames[f := x])
    else c.(frames := c.frames[f := x], lru := Without(c.lru, f), pinned := c.pinned + [f])
  }

  // Identities alone decide the chains, the objects' lists and uniqueness.
  lemma SameIdentity(c: Cache, r: Cache, f: Fid)
    requires CacheOk(c) && f in c.frames && f in r.frames && r.frames == c.frames[f := r.frames[f]]
    requires r.frames[f].obj == c.frames[f].obj && r.frames[f].page == c.frames[f].page
    requires r.chains == c.chains && r.objs == c.objs
    ensures Unique(r) && Chains(r) && Objs(r)
  {
    hide Hash, ListOf;
    var y := r.frames[f];
    forall h | 0 <= h < |r.chains| ensures ListOf(r.chains[h], r.frames, InChain(h, |r.chains|)) {
      var kind := InChain(h, |c.chains|);
      if kind(c.frames[f]) {
        ListChange(c.chains[h], c.frames, f, y, kind);
      } else {
        ListAdd(c.chains[h], c.frames, f, y, kind);
      }
    }
    forall q | q in r.objs ensures ObjOk(r, q) {
      assert ObjOk(c, q);
      if q == y.obj { ListChange(c.objs[q].pages, c.frames, f, y, OfObj(q)); }
      else { ListAdd(c.objs[q].pages, c.frames, f, y, OfObj(q)); }
    }
    forall q, k, g, g' | At(r, q, k, g) && At(r, q, k, g') ensures g == g' {
      assert At(c, q, k, g) && At(c, q, k, g');
    }
  }

  lemma UnpinOk(c: Cache, f: Fid)
    requires CacheOk(c) && f in c.frames && c.frames[f].pins > 0
    ensures CacheOk(WithUnpin(c, f))
  {
    hide Hash, ListOf;
    var r := WithUnpin(c, f);
    SameIdentity(c, r, f);
    ListChange(c.pinned, c.frames, f, r.frames[f], Pinned());
    ListAdd(c.lru, c.frames, f, r.frames[f], Unpinned());
  }

  lemma PinOk(c: Cache, f: Fid)
    requires CacheOk(c) && f in c.frames
    ensures CacheOk(WithPin(c, f))
  {
    hide Hash, ListOf;
    var r := WithPin(c, f);
    SameIdentity(c, r, f);
    if c.frames[f].pins > 0 {
      ListChange(c.pinned, c.frames, f, r.frames[f], Pinned());
      ListAdd(c.lru, c.frames, f, r.frames[f], Unpinned());
    } else {
      ListChange(c.lru, c.frames, f, r.frames[f], Unpinned());
      ListAdd(c.pinned, c.frames, f, r.frames[f], Pinned());
    }
  }

  // ---------- least-recently-requested order ----------

  // Each frame was requested or unpinned later than those before it.
  ghost predicate Ordered(l: seq<Fid>, since: map<Fid, nat>, clock: nat)
  {
    && (forall i :: 0 <= i < |l| ==> l[i] in since && since[l[i]] < clock)
    && forall i, j :: 0 <= i < j < |l| ==> since[l[i]] < since[l[j]]
  }

  lemma {:induction false} WithoutOrdered(l: seq<Fid>, f: Fid, since: map<Fid, nat>, clock: nat)
    requires Ordered(l, since, clock)
    ensures Ordered(Without(l, f), since, clock)
    ensures forall g :: g in Without(l, f) ==> g in l
  {
    hide Ordered;
    if l != [] {
      TailOrdered(l, since, clock);
      WithoutOrdered(l[1..], f, since, clock);
      assert forall g :: g in l <==> g == l[0] || g in l[1..];
      if l[0] != f { ConsOrdered(l[0], Without(l[1..], f), since, clock); }
    }
  }

  lemma TailOrdered(l: seq<Fid>, since: map<Fid, nat>, clock: nat)
    requires Ordered(l, since, clock) && l != []
    ensures Ordered(l[1..], since, clock) && l[0] in since && since[l[0]] < clock
    ensures forall g :: g in l[1..] ==> g in since && since[l[0]] < since[g]
  {
  }

  lemma ConsOrdered(f: Fid, l: seq<Fid>, since: map<Fid, nat>, clock: nat)
    requires Ordered(l, since, clock) && f in since && since[f] < clock
    requires forall g :: g in l ==> g in since && since[f] < since[g]
    ensures Ordered([f] + l, since, clock)
  {
  }

  lemma AppendOrdered(l: seq<Fid>, f: Fid, since: map<Fid, nat>, clock: nat)
    requires Ordered(l, since, clock) && f !in l
    ensures Ordered(l + [f], since[f := clock], clock + 1)
  {
  }

  class PageCache {
    var frames: map<Fid, Frame>
    const chains: array<seq<Fid>>
    var objs: map<ObjId, Obj>
    var lru: seq<Fid>
    var pinned: seq<Fid>
    // When each frame was last requested, or unpinned.
    ghost var since: map<Fid, nat>
    ghost var clock: nat

    ghost function Value(): Cache
      reads this, chains
    {
      Cache(frames, chains[..], objs, lru, pinned)
    }

    ghost predicate Valid()
      reads this, chains
    {
      CacheOk(Value()) && Ordered(lru, since, clock)
    }

    constructor (n: nat, known: map<ObjId, Obj>)
      requires n > 0 && forall o :: o in known ==> known[o].nres == 0 && known[o].pages == []
      ensures Valid() && frames == map[] && objs == known && fresh(chains)
    {
      frames, objs, lru, pinned, since, clock := map[], known, [], [], map[], 0;
      chains := new seq<Fid>[n](_ => []);
    }

    // pframe_get_resident
    method GetResident(o: ObjId, pagenum: nat) returns (pf: Option<Fid>)
      requires Valid()
      modifies this`lru, this`since, this`clock
      ensures Valid() && (pf.None? <==> forall f :: !At(old(Value()), o, pagenum, f))
      ensures pf.Some? ==> At(old(Value()), o, pagenum, pf.value)
      ensures lru == if pf.Some? && frames[pf.value].pins == 0 then Without(old(lru), pf.value) + [pf.value]
                     else old(lru)
    {
      hide Hash, CacheOk, Ordered;
      ghost var c := Value();
      LookupIs(c, o, pagenum, 0);
      CacheParts(c);
      var l := chains[Hash(o, pagenum, chains.Length)];
      pf := None;
      var i := 0;
      while i < |l| && pf.None?
        invariant 0 <= i <= |l| && Value() == c && unchanged(this)
        invariant pf.Some? ==> pf.value in l && Search(l, frames, o, pagenum) == pf
        invariant pf.None? ==> Search(l, frames, o, pagenum) == Search(l[i..], frames, o, pagenum)
      {
        if frames[l[i]].obj == o && frames[l[i]].page == pagenum {
          pf := Some(l[i]);
        }
        i := i + 1;
      }
      if pf.Some? {
        LookupIs(c, o, pagenum, pf.value);
        if frames[pf.value].pins == 0 {
          TouchOk(c, pf.value);
          LruDistinct(c, pf.value);
          WithoutOrdered(lru, pf.value, since, clock);
          AppendOrdered(Without(lru, pf.value), pf.value, since, clock);
          lru := Without(lru, pf.value) + [pf.value];
          since, clock := since[pf.value := clock], clock + 1;
        }
      }
    }

    // pframe_alloc. `room` says whether there is memory, `f` and `data` are the new frame
    // and what is in it.
    method Alloc(o: ObjId, pagenum: nat, room: bool, f: Fid, data: Data) returns (pf: Option<Fid>)
      requires Valid() && o in objs && f !in frames && forall g :: !At(Value(), o, pagenum, g)
      modifies this, chains
      ensures Valid() && pf == if room then Some(f) else None
      ensures Value() == if room then Insert(old(Value()), f, o, pagenum, data) else old(Value())
      ensures room ==>
                && frames == old(frames)[f := Frame(o, pagenum, 0, false, false, data)] && objs.Keys == old(objs).Keys
                && objs[o].refs == old(objs)[o].refs + 1 && objs[o].nres == old(objs)[o].nres + 1
                && objs[o].pages == [f] + old(objs)[o].pages && objs[o].shadowed == old(objs)[o].shadowed
                && (forall q :: q in objs && q != o ==> objs[q] == old(objs)[q])
                && lru == old(lru) + [f] && pinned == old(pinned)
    {
      hide Hash, CacheOk, Ordered;
      pf := None;
      if room {
        ghost var c := Value();
        InsertOk(c, f, o, pagenum, data);
        LruKnown(c, f);
        AppendOrdered(lru, f, since, clock);
        CacheParts(c);
        lru := lru + [f];
        frames := frames[f := Frame(o, pagenum, 0, false, false, data)];
        var h := Hash(o, pagenum, chains.Length);
        chains[h] := [f] + chains[h];
        objs := objs[o := objs[o].(refs := objs[o].refs + 1, nres := objs[o].nres + 1, pages := [f] + objs[o].pages)];
        since, clock := since[f := clock], clock + 1;
        pf := Some(f);
        assert Value().chains == Insert(c, f, o, pagenum, data).chains;
      }
    }

    // pframe_pin
    method Pin(f: Fid)
      requires Valid() && f in frames
      modifies this
      ensures Valid() && Value() == WithPin(old(Value()), f)
      ensures frames == old(frames)[f := old(frames)[f].(pins := old(frames)[f].pins + 1)]
      ensures f in pinned && f !in lru && objs == old(objs)
    {
      hide Hash, CacheOk, Ordered;
      PinOk(Value(), f);
      LruDistinct(WithPin(Value(), f), f);
      if frames[f].pins == 0 {
        WithoutOrdered(lru, f, since, clock);
        lru := Without(lru, f);
        pinned := pinned + [f];
      }
      frames := frames[f := frames[f].(pins := frames[f].pins + 1)];
    }

    // pframe_unpin
    method Unpin(f: Fid)
      requires Valid() && f in frames && frames[f].pins > 0
      modifies this
      ensures Valid() && Value() == WithUnpin(old(Value()), f)
      ensures frames == old(frames)[f := old(frames)[f].(pins := old(frames)[f].pins - 1)] && objs == old(objs)
      ensures if old(frames)[f].pins == 1 then f !in pinned && lru == old(lru) + [f] else f in pinned && lru == old(lru)
    {
      hide Hash, CacheOk, Ordered;
      UnpinOk(Value(), f);
      LruDistinct(Value(), f);
      LruDistinct(WithUnpin(Value(), f), f);
      frames := frames[f := frames[f].(pins := frames[f].pins - 1)];
      if frames[f].pins == 0 {
        AppendOrdered(lru, f, since, clock);
        pinned := Without(pinned, f);
        lru := lru + [f];
        since, clock := since[f := clock], clock + 1;
      }
    }

    // pframe_clean, of a page whose object writes it back
    method Clean(f: Fid)
      requires Valid() && f in frames && frames[f].dirty && frames[f].pins == 0
      modifies this`frames
      ensures Valid() && frames == old(frames)[f := old(frames)[f].(dirty := false)]
    {
      hide Hash, CacheOk, Ordered;
      CleanOk(Value(), f);
      frames := frames[f := frames[f].(dirty := false)];
    }

    // pframe_free. The object outlives its page: it has a reference that is not a page's.
    method Free(f: Fid)
      requires Valid() && f in frames && frames[f].pins == 0 && !frames[f].busy
      modifies this, chains
      ensures Valid() && Value() == Released(old(Value()), f)
      ensures frames == old(frames) - {f} && lru == Without(old(lru), f) && pinned == old(pinned)
      ensures var o := old(frames)[f].obj;
              && o in objs && objs.Keys == old(objs).Keys && objs[o].pages == Without(old(objs)[o].pages, f)
              && objs[o].refs == old(objs)[o].refs - 1 && objs[o].nres == old(objs)[o].nres - 1
              && objs[o].shadowed == old(objs)[o].shadowed
              && forall q :: q in objs && q != o ==> objs[q] == old(objs)[q]
    {
      hide Hash, CacheOk, Ordered;
      ghost var c := Value();
      CacheParts(c);
      DeleteOk(c, f);
      WithoutOrdered(lru, f, since, clock);
      ReleasedOk(c, f);
      var x := frames[f];
      var o, h := x.obj, Hash(x.obj, x.page, chains.Length);
      chains[h] := Without(chains[h], f);
      frames := frames - {f};
      lru := Without(lru, f);
      objs := objs[o := objs[o].(nres := objs[o].nres - 1, pages := Without(objs[o].pages, f))];
      objs := objs[o := objs[o].(refs := objs[o].refs - 1)];
      assert Value().chains == Released(c, f).chains;
      assert objs == Released(c, f).objs;
    }

    // pframe_migrate
    method Migrate(f: Fid, dest: ObjId)
      requires Valid() && f in frames && !frames[f].busy && dest in objs && dest != frames[f].obj
      requires (exists g :: At(Value(), dest, frames[f].page, g)) ==> frames[f].pins == 1 && frames[f].dirty
      modifies this, chains
      ensures Valid() && Migrated(old(Value()), Value(), f, dest) && objs.Keys == old(objs).Keys
      ensures forall o :: o in objs ==> objs[o].refs - objs[o].nres == old(objs)[o].refs - old(objs)[o].nres
    {
      hide CacheOk, Ordered, Move;
      ghost var c := Value();
      CacheParts(c);
      var pf := GetResident(dest, frames[f].page);
      if pf.Some? {
        Discard(f);
      } else {
        Rehome(f, dest);
        MoveEffect(c, Value(), f, dest);
      }
    }

    // The page is dropped: there is a newer one.
    method Discard(f: Fid)
      requires Valid() && f in frames && !frames[f].busy && frames[f].pins == 1 && frames[f].dirty
      modifies this, chains
      ensures Valid() && old(frames)[f].obj in old(objs) && frames == old(frames) - {f}
      ensures var o := old(frames)[f].obj; objs == old(objs)[o := old(objs)[o].(refs := old(objs)[o].refs - 1,
                nres := old(objs)[o].nres - 1, pages := Without(old(objs)[o].pages, f))]
    {
      hide CacheOk, Ordered;
      CacheParts(Value());
      Unpin(f);
      Clean(f);
      CacheParts(Value());
      Free(f);
    }

    // The page moves to dest.
    method Rehome(f: Fid, dest: ObjId)
      requires Valid() && f in frames && dest in objs && dest != frames[f].obj
      requires forall g :: !At(Value(), dest, frames[f].page, g)
      modifies this, chains
      ensures Valid() && |old(Value()).chains| > 0 && old(frames)[f].obj in old(objs)
              && Value() == Move(old(Value()), f, dest)
    {
      hide Hash, CacheOk, Ordered;
      ghost var c := Value();
      CacheParts(c);
      MoveOk(c, f, dest);
      var x := frames[f];
      var src := x.obj;
      frames := frames[f := x.(obj := dest)];
      var h := Hash(src, x.page, chains.Length);
      chains[h] := Without(chains[h], f);
      objs := objs[src := objs[src].(nres := objs[src].nres - 1, pages := Without(objs[src].pages, f))];
      objs := objs[src := objs[src].(refs := objs[src].refs - 1)];
      var k := Hash(dest, x.page, chains.Length);
      chains[k] := [f] + chains[k];
      objs := objs[dest := objs[dest].(nres := objs[dest].nres + 1, pages := [f] + objs[dest].pages)];
      objs := objs[dest := objs[dest].(refs := objs[dest].refs + 1)];
      assert Value().chains == Move(c, f, dest).chains;
      assert objs == Move(c, f, dest).objs;
    }
  }

  lemma MoveEffect(c: Cache, r: Cache, f: Fid, dest: ObjId)
    requires |c.chains| > 0 && f in c.frames && c.frames[f].obj in c.objs && dest in c.objs && dest != c.frames[f].obj
    requires forall g :: !At(c, dest, c.frames[f].page, g)
    requires r == Move(c, f, dest)
    ensures Migrated(c, r, f, dest)
  {
    hide Hash;
  }

  // pframe_free with the reference dropped.
  function Released(c: Cache, f: Fid): Cache
    requires |c.chains| > 0 && f in c.frames && c.frames[f].obj in c.objs
  {
    var d, o := Delete(c, f), c.frames[f].obj;
    d.(objs := d.objs[o := d.objs[o].(refs := d.objs[o].refs - 1)])
  }

  // Reference counts do not matter to the lists.
  lemma ReleasedOk(c: Cache, f: Fid)
    requires CacheOk(c) && f in c.frames && c.frames[f].pins == 0
    ensures c.frames[f].obj in c.objs && CacheOk(Released(c, f))
  {
    hide Hash, ListOf;
    DeleteOk(c, f);
    var d, r := Delete(c, f), Released(c, f);
    forall o | o in r.objs ensures ObjOk(r, o) {
      assert ObjOk(d, o);
    }
    forall o, p, g, g' | At(r, o, p, g) && At(r, o, p, g') ensures g == g' {
      assert At(d, o, p, g) && At(d, o, p, g');
    }
  }

  lemma CleanOk(c: Cache, f: Fid)
    requires CacheOk(c) && f in c.frames && c.frames[f].pins == 0
    ensures CacheOk(c.(frames := c.frames[f := c.frames[f].(dirty := false)]))
  {
    hide Hash, ListOf;
    var r := c.(frames := c.frames[f := c.frames[f].(dirty := false)]);
    SameIdentity(c, r, f);
    ListChange(c.lru, c.frames, f, r.frames[f], Unpinned());
    ListAdd(c.pinned, c.frames, f, r.frames[f], Pinned());
  }

  lemma LruKnown(c: Cache, f: Fid)
    requires CacheOk(c) && f !in c.frames
    ensures f !in c.lru
  {
  }

  // What pframe_migrate does to the frames and the objects: the page goes to dest, or goes
  // away where dest has its own; either way its object loses it and the reference with it.
  ghost predicate Migrated(c: Cache, r: Cache, f: Fid, dest: ObjId)
    requires f in c.frames
  {
    var x := c.frames[f];
    var kept := !exists g :: At(c, dest, x.page, g);
    && x.obj in c.objs && dest in c.objs && r.objs.Keys == c.objs.Keys
    && r.frames == (if kept then c.frames[f := x.(obj := dest)] else c.frames - {f})
    && r.objs[x.obj] == c.objs[x.obj].(refs := c.objs[x.obj].refs - 1, nres := c.objs[x.obj].nres - 1,
                                       pages := Without(c.objs[x.obj].pages, f))
    && r.objs[dest] == (if kept then c.objs[dest].(refs := c.objs[dest].refs + 1, nres := c.objs[dest].nres + 1,
                                                   pages := [f] + c.objs[dest].pages)
                        else c.objs[dest])
    && forall o :: o in c.objs && o != x.obj && o != dest ==> r.objs[o] == c.objs[o]
  }

  lemma CacheParts(c: Cache)
    requires CacheOk(c)
    ensures |c.chains| > 0 && forall f :: f in c.frames ==> c.frames[f].obj in c.objs
  {
  }

  lemma TouchOk(c: Cache, f: Fid)
    requires CacheOk(c) && f in c.frames && c.frames[f].pins == 0
    ensures CacheOk(c.(lru := Without(c.lru, f) + [f]))
  {
    var r := c.(lru := Without(c.lru, f) + [f]);
    ListTouch(c.lru, c.frames, f, Unpinned());
    forall o | o in r.objs ensures ObjOk(r, o) {
      assert ObjOk(c, o);
    }
    forall o, p, g, g' | At(r, o, p, g) && At(r, o, p, g') ensures g == g' {
      assert At(c, o, p, g) && At(c, o, p, g');
    }
  }

  lemma LruDistinct(c: Cache, f: Fid)
    requires CacheOk(c) && f in c.frames
    ensures f !in Without(c.lru, f) && (f in c.lru <==> c.frames[f].pins == 0)
            && (f in c.pinned <==> c.frames[f].pins > 0)
  {
    hide Unique, Chains, Objs;
    WithoutIs(c.lru, f);
  }
}
