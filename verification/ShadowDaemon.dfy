/**
 The shadow daemon (kernel/vm/shadowd.c): it walks the chain of shadow objects under every
 area and folds each object that has a single parent into the object above it. What every
 object shows of every page stays the same, and so do the reference counts' meanings.

 The pass runs without other threads in between. `rank` orders the chains.
 */
module ShadowDaemon {
  import opened Common
  import opened Lists
  import opened PageFrames

  // ---------- what an object shows ----------

  ghost function Content(c: Cache, o: ObjId, p: nat): Option<Data> { ContentOf(c.frames, o, p) }

  ghost function ContentOf(frames: map<Fid, Frame>, o: ObjId, p: nat): Option<Data>
  {
    if f :| f in frames && frames[f].obj == o && frames[f].page == p then Some(frames[f].data) else None
  }

  // The first resident page on the way down, or else the object at the bottom.
  datatype Seen = Page(data: Data) | Below(bottom: ObjId)

  ghost predicate Ranked(c: Cache, rank: map<ObjId, nat>)
  {
    forall o :: o in c.objs ==>
      && o in rank
      && (c.objs[o].shadowed.Some? ==> c.objs[o].shadowed.value in c.objs && c.objs[o].shadowed.value in rank
                                       && rank[c.objs[o].shadowed.value] < rank[o])
  }

  ghost function View(c: Cache, rank: map<ObjId, nat>, x: ObjId, p: nat): Seen
    requires Ranked(c, rank) && x in c.objs
    decreases rank[x]
  {
    if Content(c, x, p).Some? then Page(Content(c, x, p).value)
    else if c.objs[x].shadowed.None? then Below(x)
    else View(c, rank, c.objs[x].shadowed.value, p)
  }

  lemma ContentIs(c: Cache, o: ObjId, p: nat, f: Fid)
    requires Unique(c) && At(c, o, p, f)
    ensures Content(c, o, p) == Some(c.frames[f].data)
  {
    assert forall g :: g in c.frames && c.frames[g].obj == o && c.frames[g].page == p ==> At(c, o, p, g);
  }

  // ---------- reference counts ----------

  ghost function Parents(c: Cache, x: ObjId): set<ObjId>
  {
    set y | y in c.objs && c.objs[y].shadowed == Some(x)
  }

  // References other than those of its pages.
  function Extra(c: Cache, x: ObjId): int
    requires x in c.objs
  {
    c.objs[x].refs - c.objs[x].nres
  }

  // A count is the resident pages, the parents, the areas and the temporary references.
  ghost predicate Counted(c: Cache, areas: multiset<ObjId>, temps: multiset<ObjId>)
  {
    && (forall x :: x in c.objs ==> Extra(c, x) == |Parents(c, x)| + areas[x] + temps[x])
    && forall x :: x in areas || x in temps ==> x in c.objs
  }

  // The pages of shadow objects are pinned once, dirty and not busy.
  ghost predicate ShadowPages(c: Cache)
  {
    forall f :: f in c.frames && c.frames[f].obj in c.objs && c.objs[c.frames[f].obj].shadowed.Some? ==>
      c.frames[f].pins == 1 && c.frames[f].dirty && !c.frames[f].busy
  }

  // ---------- moving the pages of o up to last ----------

  ghost function First(c: Cache, a: ObjId, b: ObjId, p: nat): Option<Data>
  {
    if Content(c, a, p).Some? then Content(c, a, p) else Content(c, b, p)
  }

  ghost predicate SameShape(c: Cache, r: Cache)
  {
    && r.objs.Keys == c.objs.Keys
    && forall x :: x in c.objs ==> r.objs[x].shadowed == c.objs[x].shadowed && Extra(r, x) == Extra(c, x)
  }

  ghost predicate SamePages(c: Cache, r: Cache, o: ObjId, last: ObjId)
  {
    && (forall p :: First(r, last, o, p) == First(c, last, o, p))
    && (forall x, p :: x != o && x != last ==> Content(r, x, p) == Content(c, x, p))
  }

  lemma MigrateShape(c: Cache, r: Cache, f: Fid, last: ObjId)
    requires f in c.frames && Migrated(c, r, f, last) && c.frames[f].obj != last
    ensures SameShape(c, r)
  {
  }

  lemma MigratePages(c: Cache, r: Cache, f: Fid, last: ObjId)
    requires Unique(c) && Unique(r) && f in c.frames && Migrated(c, r, f, last) && c.frames[f].obj != last
    ensures SamePages(c, r, c.frames[f].obj, last)
  {
    hide ContentOf;
    var o := c.frames[f].obj;
    forall x, p | x != o && x != last ensures Content(r, x, p) == Content(c, x, p) {
      ContentSame(c, r, x, p);
    }
    forall p ensures First(r, last, o, p) == First(c, last, o, p) {
      if p != c.frames[f].page {
        ContentSame(c, r, last, p);
        ContentSame(c, r, o, p);
      } else {
        MigrateThisPage(c, r, f, last);
      }
    }
  }

  lemma ContentSame(c: Cache, r: Cache, o: ObjId, p: nat)
    requires Unique(c) && Unique(r) && forall f :: At(c, o, p, f) <==> At(r, o, p, f)
    requires forall f :: At(c, o, p, f) && f in r.frames ==> r.frames[f].data == c.frames[f].data
    ensures Content(r, o, p) == Content(c, o, p)
  {
    if f :| At(c, o, p, f) {
      ContentIs(c, o, p, f);
      ContentIs(r, o, p, f);
    } else {
      ContentNone(c, o, p);
      ContentNone(r, o, p);
    }
  }

  lemma MigrateThisPage(c: Cache, r: Cache, f: Fid, last: ObjId)
    requires Unique(c) && Unique(r) && f in c.frames && Migrated(c, r, f, last) && c.frames[f].obj != last
    ensures First(r, last, c.frames[f].obj, c.frames[f].page) == First(c, last, c.frames[f].obj, c.frames[f].page)
  {
    hide ContentOf;
    var x := c.frames[f];
    ContentIs(c, x.obj, x.page, f);
    if g :| At(c, last, x.page, g) {
      ContentIs(c, last, x.page, g);
      assert At(r, last, x.page, g);
      ContentIs(r, last, x.page, g);
    } else {
      assert At(r, last, x.page, f);
      ContentIs(r, last, x.page, f);
      ContentNone(c, last, x.page);
    }
  }

  lemma ContentNone(c: Cache, o: ObjId, p: nat)
    requires forall f :: !At(c, o, p, f)
    ensures Content(c, o, p) == None
  {
    assert forall f :: f in c.frames && c.frames[f].obj == o && c.frames[f].page == p ==> At(c, o, p, f);
  }

  // ---------- taking o out of the chain ----------

  // last is put on top of what o shadowed, and o is gone.
  function Relinked(c: Cache, o: ObjId, last: ObjId): Cache
    requires o in c.objs && last in c.objs
  {
    c.(objs := (c.objs - {o})[last := c.objs[last].(shadowed := c.objs[o].shadowed)])
  }

  lemma RelinkedOk(c: Cache, o: ObjId, last: ObjId, rank: map<ObjId, nat>)
    requires CacheOk(c) && Ranked(c, rank) && ShadowPages(c) && o in c.objs && last in c.objs && o != last
    requires c.objs[o].pages == [] && c.objs[o].shadowed.Some? && Parents(c, o) == {last}
    ensures CacheOk(Relinked(c, o, last)) && Ranked(Relinked(c, o, last), rank) && ShadowPages(Relinked(c, o, last))
  {
    hide ListOf;
    var r := Relinked(c, o, last);
    NoPages(c, o);
    assert last in Parents(c, o);
    forall x | x in r.objs ensures ObjOk(r, x) {
      assert ObjOk(c, x);
    }
    forall x, p, g, g' | At(r, x, p, g) && At(r, x, p, g') ensures g == g' {
      assert At(c, x, p, g) && At(c, x, p, g');
    }
    forall x | x in r.objs && r.objs[x].shadowed.Some?
      ensures r.objs[x].shadowed.value in r.objs && r.objs[x].shadowed.value in rank
              && rank[r.objs[x].shadowed.value] < rank[x]
    {
      assert x != last && c.objs[x].shadowed == Some(o) ==> x in Parents(c, o);
    }
  }

  lemma NoPages(c: Cache, o: ObjId)
    requires Objs(c) && o in c.objs && c.objs[o].pages == []
    ensures forall f :: f in c.frames ==> c.frames[f].obj != o
    ensures forall p :: Content(c, o, p) == None
  {
    assert ObjOk(c, o);
    assert forall f :: f in c.frames && OfObj(o)(c.frames[f]) ==> f in c.objs[o].pages;
  }

  // What every remaining object shows is what it showed before o's pages were moved up.
  lemma {:induction false} RelinkedView(b: Cache, c: Cache, o: ObjId, last: ObjId, rank: map<ObjId, nat>, x: ObjId,
                                        p: nat)
    requires Ranked(b, rank) && SameShape(b, c) && SamePages(b, c, o, last)
    requires o in c.objs && last in c.objs && o != last && c.objs[o].shadowed.Some? && c.objs[last].shadowed == Some(o)
    requires Parents(b, o) == {last} && forall k :: Content(c, o, k) == None
    requires Ranked(Relinked(c, o, last), rank) && x in Relinked(c, o, last).objs
    ensures View(Relinked(c, o, last), rank, x, p) == View(b, rank, x, p)
    decreases rank[x]
  {
    hide ContentOf;
    var r := Relinked(c, o, last);
    if x == last {
      var s := c.objs[o].shadowed.value;
      RelinkedView(b, c, o, last, rank, s, p);
      assert View(b, rank, o, p) == if Content(b, o, p).Some? then Page(Content(b, o, p).value)
             else View(b, rank, s, p);
      assert First(c, last, o, p) == First(b, last, o, p);
    } else {
      assert Content(c, x, p) == Content(b, x, p);
      if b.objs[x].shadowed.Some? {
        assert b.objs[x].shadowed == Some(o) ==> x in Parents(b, o);
        RelinkedView(b, c, o, last, rank, b.objs[x].shadowed.value, p);
      }
    }
  }

  lemma RelinkedCounted(c: Cache, o: ObjId, last: ObjId, areas: multiset<ObjId>, temps: multiset<ObjId>)
    requires Counted(c, areas, temps) && o in c.objs && last in c.objs && o != last
    requires c.objs[o].shadowed.Some? && c.objs[o].shadowed.value != o && c.objs[o].shadowed.value != last
    requires c.objs[last].shadowed == Some(o) && Parents(c, o) == {last} && Extra(c, o) == 1
    ensures Counted(Relinked(c, o, last), areas, temps)
  {
    hide Parents;
    var r := Relinked(c, o, last);
    assert areas[o] == 0 && temps[o] == 0;
    forall x | x in r.objs ensures Extra(r, x) == |Parents(r, x)| + areas[x] + temps[x] {
      RelinkedParents(c, o, last, x);
    }
  }

  lemma RelinkedParents(c: Cache, o: ObjId, last: ObjId, x: ObjId)
    requires o in c.objs && last in c.objs && o != last && x in Relinked(c, o, last).objs
    requires c.objs[o].shadowed.Some? && c.objs[last].shadowed == Some(o)
    ensures |Parents(Relinked(c, o, last), x)| == |Parents(c, x)|
  {
    var r, s := Relinked(c, o, last), c.objs[o].shadowed.value;
    if x == s {
      assert Parents(r, s) == Parents(c, s) - {o} + {last};
      assert o in Parents(c, s) && last !in Parents(c, s);
    } else {
      assert Parents(r, x) == Parents(c, x);
    }
  }

  // ---------- where the daemon's assertion fails ----------

  // How many parents and areas an object has.
  ghost function Own(c: Cache, areas: multiset<ObjId>, x: ObjId): nat { |Parents(c, x)| + areas[x] }

  // Some object below x, other than the bottom one, has more than two parents.
  ghost predicate Crowded(c: Cache, rank: map<ObjId, nat>, areas: multiset<ObjId>, x: ObjId)
    requires Ranked(c, rank) && x in c.objs
    decreases rank[x]
  {
    && c.objs[x].shadowed.Some?
    && var y := c.objs[x].shadowed.value;
       c.objs[y].shadowed.Some? && (Own(c, areas, y) > 2 || Crowded(c, rank, areas, y))
  }

  lemma {:induction false} CrowdedSame(c: Cache, r: Cache, rank: map<ObjId, nat>, areas: multiset<ObjId>, x: ObjId)
    requires Ranked(c, rank) && Ranked(r, rank) && SameLinks(c, r) && x in c.objs
    ensures Crowded(r, rank, areas, x) <==> Crowded(c, rank, areas, x)
    decreases rank[x]
  {
    if c.objs[x].shadowed.Some? {
      var y := c.objs[x].shadowed.value;
      assert Parents(r, y) == Parents(c, y);
      CrowdedSame(c, r, rank, areas, y);
    }
  }

  // Folding takes away no object that could be in the way.
  lemma {:induction false} FoldedCrowded(c: Cache, r: Cache, rank: map<ObjId, nat>, areas: multiset<ObjId>,
                                         temps: multiset<ObjId>, o: ObjId, last: ObjId, x: ObjId)
    requires Ranked(c, rank) && Ranked(r, rank) && Folded(c, r, o, last) && last in c.objs
    requires c.objs[last].shadowed == Some(o)
    requires Counted(c, areas, temps) && Counted(r, areas, temps) && c.objs[o].shadowed.Some? && Extra(c, o) == 1
    requires Parents(c, o) == {last} && x in r.objs
    ensures Crowded(r, rank, areas, x) <==> Crowded(c, rank, areas, x)
    decreases rank[x]
  {
    hide Counted, Own;
    OwnBound(c, areas, temps, o);
    if x == last {
      FoldedOwn(c, r, areas, temps, o, last, c.objs[o].shadowed.value);
      FoldedCrowded(c, r, rank, areas, temps, o, last, c.objs[o].shadowed.value);
      assert Crowded(c, rank, areas, last) <==> Crowded(c, rank, areas, o);
    } else if c.objs[x].shadowed.Some? {
      var y := c.objs[x].shadowed.value;
      assert y == o ==> x in Parents(c, o);
      FoldedOwn(c, r, areas, temps, o, last, y);
      FoldedCrowded(c, r, rank, areas, temps, o, last, y);
    }
  }

  lemma OwnBound(c: Cache, areas: multiset<ObjId>, temps: multiset<ObjId>, o: ObjId)
    requires Counted(c, areas, temps) && o in c.objs
    ensures Own(c, areas, o) <= Extra(c, o)
  {
    hide Parents;
  }

  // Every object below x, other than the bottom one, has two parents.
  ghost predicate Tidy(c: Cache, rank: map<ObjId, nat>, areas: multiset<ObjId>, x: ObjId)
    requires Ranked(c, rank) && x in c.objs
    decreases rank[x]
  {
    c.objs[x].shadowed.Some? && c.objs[c.objs[x].shadowed.value].shadowed.Some? ==>
      Own(c, areas, c.objs[x].shadowed.value) == 2 && Tidy(c, rank, areas, c.objs[x].shadowed.value)
  }

  lemma NotTidy(c: Cache, rank: map<ObjId, nat>, areas: multiset<ObjId>, temps: multiset<ObjId>, o: ObjId, last: ObjId)
    requires Ranked(c, rank) && Counted(c, areas, temps) && last in c.objs && c.objs[last].shadowed == Some(o)
    requires o in c.objs && c.objs[o].shadowed.Some? && Extra(c, o) == 1
    ensures !Tidy(c, rank, areas, last)
  {
    hide Counted, Own;
    OwnBound(c, areas, temps, o);
  }

  // Folding touches no chain that is tidy.
  lemma {:induction false} FoldedTidy(c: Cache, r: Cache, rank: map<ObjId, nat>, areas: multiset<ObjId>,
                                      temps: multiset<ObjId>, o: ObjId, last: ObjId, x: ObjId)
    requires Ranked(c, rank) && Ranked(r, rank) && Folded(c, r, o, last) && last in c.objs
    requires c.objs[last].shadowed == Some(o)
    requires Counted(c, areas, temps) && Counted(r, areas, temps) && !Tidy(c, rank, areas, last)
    requires Parents(c, o) == {last} && x in r.objs && Tidy(c, rank, areas, x)
    ensures Tidy(r, rank, areas, x)
    decreases rank[x]
  {
    hide Counted, Own;
    if c.objs[x].shadowed.Some? {
      var y := c.objs[x].shadowed.value;
      assert y == o ==> x in Parents(c, o);
      if c.objs[y].shadowed.Some? {
        FoldedOwn(c, r, areas, temps, o, last, y);
        FoldedTidy(c, r, rank, areas, temps, o, last, y);
      }
    }
  }

  // Being crowded is the same for every object that remains, and what is tidy stays so.
  ghost predicate SameCrowds(c: Cache, r: Cache, rank: map<ObjId, nat>, areas: multiset<ObjId>)
    requires Ranked(c, rank) && Ranked(r, rank)
  {
    && r.objs.Keys <= c.objs.Keys
    && (forall x :: x in r.objs ==> (Crowded(r, rank, areas, x) <==> Crowded(c, rank, areas, x)))
    && (forall x :: x in r.objs && Tidy(c, rank, areas, x) ==> Tidy(r, rank, areas, x))
  }

  lemma SameCrowdsLinks(c: Cache, r: Cache, rank: map<ObjId, nat>, areas: multiset<ObjId>)
    requires Ranked(c, rank) && Ranked(r, rank) && SameLinks(c, r)
    ensures SameCrowds(c, r, rank, areas)
  {
    hide Crowded, Tidy;
    forall x | x in r.objs ensures Crowded(r, rank, areas, x) <==> Crowded(c, rank, areas, x) {
      CrowdedSame(c, r, rank, areas, x);
    }
    forall x | x in r.objs && Tidy(c, rank, areas, x) ensures Tidy(r, rank, areas, x) {
      TidySame(c, r, rank, areas, x);
    }
  }

  lemma SameCrowdsFolded(c: Cache, r: Cache, rank: map<ObjId, nat>, areas: multiset<ObjId>, temps: multiset<ObjId>,
                         o: ObjId, last: ObjId)
    requires Ranked(c, rank) && Ranked(r, rank) && Folded(c, r, o, last) && last in c.objs
    requires c.objs[last].shadowed == Some(o)
    requires Counted(c, areas, temps) && Counted(r, areas, temps) && c.objs[o].shadowed.Some? && Extra(c, o) == 1
    requires Parents(c, o) == {last}
    ensures SameCrowds(c, r, rank, areas)
  {
    hide Crowded, Tidy, Counted, Parents;
    NotTidy(c, rank, areas, temps, o, last);
    forall x | x in r.objs ensures Crowded(r, rank, areas, x) <==> Crowded(c, rank, areas, x) {
      FoldedCrowded(c, r, rank, areas, temps, o, last, x);
    }
    forall x | x in r.objs && Tidy(c, rank, areas, x) ensures Tidy(r, rank, areas, x) {
      FoldedTidy(c, r, rank, areas, temps, o, last, x);
    }
  }

  lemma SameCrowdsTrans(b: Cache, c: Cache, r: Cache, rank: map<ObjId, nat>, areas: multiset<ObjId>)
    requires Ranked(b, rank) && Ranked(c, rank) && Ranked(r, rank)
    requires SameCrowds(b, c, rank, areas) && SameCrowds(c, r, rank, areas)
    ensures SameCrowds(b, r, rank, areas)
  {
    hide Crowded, Tidy;
  }

  lemma {:induction false} ViewSame(c: Cache, r: Cache, rank: map<ObjId, nat>, x: ObjId, p: nat)
    requires Ranked(c, rank) && Ranked(r, rank) && SameLinks(c, r) && r.frames == c.frames && x in c.objs
    ensures View(r, rank, x, p) == View(c, rank, x, p)
    decreases rank[x]
  {
    if c.objs[x].shadowed.Some? { ViewSame(c, r, rank, c.objs[x].shadowed.value, p); }
  }

  ghost predicate SameLinks(c: Cache, r: Cache)
  {
    r.objs.Keys == c.objs.Keys && forall x :: x in c.objs ==> r.objs[x].shadowed == c.objs[x].shadowed
  }

  // ---------- the daemon ----------

  ghost predicate Ready(c: Cache, rank: map<ObjId, nat>, areas: multiset<ObjId>, temps: multiset<ObjId>)
  {
    Ranked(c, rank) && ShadowPages(c) && Counted(c, areas, temps)
  }

  // Every object of r was in c and shows what it showed there.
  ghost predicate SameView(c: Cache, r: Cache, rank: map<ObjId, nat>)
    requires Ranked(c, rank) && Ranked(r, rank)
  {
    r.objs.Keys <= c.objs.Keys && forall x, p :: x in r.objs ==> View(r, rank, x, p) == View(c, rank, x, p)
  }

  lemma SameShapeTrans(b: Cache, c: Cache, r: Cache)
    requires SameShape(b, c) && SameShape(c, r)
    ensures SameShape(b, r)
  {
  }

  lemma SameShapeCounted(c: Cache, r: Cache, areas: multiset<ObjId>, temps: multiset<ObjId>)
    requires SameShape(c, r) && Counted(c, areas, temps)
    ensures Counted(r, areas, temps) && forall x :: x in c.objs ==> Parents(r, x) == Parents(c, x)
  {
    forall x | x in c.objs ensures Parents(r, x) == Parents(c, x) {
    }
  }

  // The page cache keeps it that the counts are these references, whatever pages come and go.
  lemma AllocCounted(c: Cache, f: Fid, o: ObjId, p: nat, data: Data, areas: multiset<ObjId>, temps: multiset<ObjId>)
    requires CacheOk(c) && o in c.objs && Counted(c, areas, temps)
    ensures |c.chains| > 0 && Counted(Insert(c, f, o, p, data), areas, temps)
  {
    hide CacheOk, Counted, Hash;
    CacheParts(c);
    SameShapeCounted(c, Insert(c, f, o, p, data), areas, temps);
  }

  // A new page is what its object has there, and no other page changes.
  lemma AllocShows(c: Cache, f: Fid, o: ObjId, p: nat, data: Data, x: ObjId, q: nat)
    requires CacheOk(c) && f !in c.frames && o in c.objs && forall g :: !At(c, o, p, g)
    ensures |c.chains| > 0
    ensures Content(Insert(c, f, o, p, data), x, q) == if x == o && q == p then Some(data) else Content(c, x, q)
  {
    hide CacheOk, ContentOf, Hash, Unique, Objs;
    CacheParts(c);
    Parts(c);
    var r := Insert(c, f, o, p, data);
    InsertOk(c, f, o, p, data);
    Parts(r);
    if x == o && q == p {
      ContentIs(r, o, p, f);
    } else {
      ContentSame(c, r, x, q);
    }
  }

  lemma FreeCounted(c: Cache, f: Fid, areas: multiset<ObjId>, temps: multiset<ObjId>)
    requires CacheOk(c) && f in c.frames && c.frames[f].pins == 0 && Counted(c, areas, temps)
    ensures |c.chains| > 0 && c.frames[f].obj in c.objs && Counted(Released(c, f), areas, temps)
  {
    hide CacheOk, Counted, Hash;
    CacheParts(c);
    SameShapeCounted(c, Released(c, f), areas, temps);
  }

  lemma MigrateShadowPages(c: Cache, r: Cache, f: Fid, last: ObjId)
    requires ShadowPages(c) && f in c.frames && Migrated(c, r, f, last) && c.frames[f].obj != last
    requires c.objs[c.frames[f].obj].shadowed.Some? && SameShape(c, r)
    ensures ShadowPages(r)
  {
  }

  lemma FirstPage(c: Cache, o: ObjId)
    requires Objs(c) && o in c.objs && c.objs[o].pages != []
    ensures var l := c.objs[o].pages; l[0] in c.frames && c.frames[l[0]].obj == o && Without(l, l[0]) == l[1..]
  {
    assert ObjOk(c, o);
    assert c.objs[o].pages[0] in c.objs[o].pages;
    assert OfObj(o)(c.frames[c.objs[o].pages[0]]);
  }

  lemma Parts(c: Cache)
    requires CacheOk(c)
    ensures Unique(c) && Objs(c)
  {
  }

  // All pages of o are migrated to last.
  method MigrateAll(cache: PageCache, o: ObjId, last: ObjId)
    requires cache.Valid() && ShadowPages(cache.Value())
    requires o in cache.objs && last in cache.objs && o != last && cache.objs[o].shadowed.Some?
    modifies cache, cache.chains
    ensures cache.Valid() && ShadowPages(cache.Value())
    ensures SameShape(old(cache.Value()), cache.Value()) && SamePages(old(cache.Value()), cache.Value(), o, last)
    ensures o in cache.objs && cache.objs[o].pages == []
  {
    hide CacheOk, SameShape, SamePages, ShadowPages, Ordered;
    ghost var b := cache.Value();
    var l, i := cache.objs[o].pages, 0;
    SameSelf(b, o, last);
    while i < |l|
      invariant 0 <= i <= |l| && cache.Valid() && ShadowPages(cache.Value())
      invariant o in cache.objs && last in cache.objs && cache.objs[o].pages == l[i..] && cache.objs[o].shadowed.Some?
      invariant SameShape(b, cache.Value()) && SamePages(b, cache.Value(), o, last)
    {
      ghost var c := cache.Value();
      Parts(c);
      FirstPage(c, o);
      PageReady(c, l[i], o);
      cache.Migrate(l[i], last);
      ghost var r := cache.Value();
      Parts(r);
      MigrateShape(c, r, l[i], last);
      MigratePages(c, r, l[i], last);
      MigrateShadowPages(c, r, l[i], last);
      SameShapeTrans(b, c, r);
      SamePagesTrans(b, c, r, o, last);
      i := i + 1;
    }
  }

  lemma SameSelf(c: Cache, o: ObjId, last: ObjId)
    ensures SameShape(c, c) && SamePages(c, c, o, last)
  {
  }

  lemma SamePagesTrans(b: Cache, c: Cache, r: Cache, o: ObjId, last: ObjId)
    requires SamePages(b, c, o, last) && SamePages(c, r, o, last)
    ensures SamePages(b, r, o, last)
  {
    hide First, Content;
  }

  lemma PageReady(c: Cache, f: Fid, o: ObjId)
    requires ShadowPages(c) && f in c.frames && c.frames[f].obj == o && o in c.objs && c.objs[o].shadowed.Some?
    ensures c.frames[f].pins == 1 && c.frames[f].dirty && !c.frames[f].busy
  {
  }

  // An object with one reference besides its pages has one parent and nothing else.
  lemma OnlyParent(c: Cache, o: ObjId, last: ObjId, areas: multiset<ObjId>, temps: multiset<ObjId>)
    requires Counted(c, areas, temps) && o in c.objs && last in c.objs && c.objs[last].shadowed == Some(o)
    requires Extra(c, o) == 1
    ensures Parents(c, o) == {last} && areas[o] == 0 && temps[o] == 0
  {
    assert last in Parents(c, o);
    var rest := Parents(c, o) - {last};
    assert |Parents(c, o)| == |rest| + 1;
    assert rest == {};
  }

  // o is folded into last: the first branch of the walk.
  method Collapse(cache: PageCache, o: ObjId, last: ObjId, ghost rank: map<ObjId, nat>,
                  ghost areas: multiset<ObjId>, ghost temps: multiset<ObjId>)
    requires cache.Valid() && Ready(cache.Value(), rank, areas, temps)
    requires o in cache.objs && last in cache.objs && cache.objs[last].shadowed == Some(o)
    requires cache.objs[o].shadowed.Some? && Extra(cache.Value(), o) == 1
    modifies cache, cache.chains
    ensures cache.Valid() && Ready(cache.Value(), rank, areas, temps)
    ensures SameView(old(cache.Value()), cache.Value(), rank)
    ensures cache.objs.Keys == old(cache.objs).Keys - {o} && last in cache.objs
    ensures cache.objs[last].shadowed == old(cache.objs)[o].shadowed
    ensures forall x :: x in cache.objs && x != last ==> cache.objs[x].shadowed == old(cache.objs)[x].shadowed
    ensures forall x :: x in cache.objs ==> Extra(cache.Value(), x) == Extra(old(cache.Value()), x)
  {
    hide CacheOk, SameShape, SamePages, Ordered, Ready, SameView, Folded;
    ghost var b := cache.Value();
    ReadyParts(b, rank, areas, temps);
    MigrateAll(cache, o, last);
    ghost var c := cache.Value();
    CollapseMeaning(b, c, o, last, rank, areas, temps);
    Unlink(cache, o, last);
    FoldedParts(b, cache.Value(), o, last);
  }

  // What o shadows is given to last, and o's last reference dropped: o goes, and with it its
  // reference to what it shadows.
  method Unlink(cache: PageCache, o: ObjId, last: ObjId)
    requires o in cache.objs && last in cache.objs && o != last && cache.objs[o].refs == 1 && cache.objs[o].nres == 0
    requires cache.objs[o].shadowed.Some? && cache.objs[o].shadowed.value in cache.objs
    requires cache.objs[o].shadowed.value != o && cache.objs[o].shadowed.value != last
    modifies cache`objs
    ensures cache.Value() == Relinked(old(cache.Value()), o, last)
  {
    ghost var c := cache.Value();
    var shadow := cache.objs[o].shadowed.value;
    cache.objs := cache.objs[last := cache.objs[last].(shadowed := Some(shadow))];
    cache.objs := cache.objs[shadow := cache.objs[shadow].(refs := cache.objs[shadow].refs + 1)];
    assert cache.objs[o].refs == 1 && cache.objs[o].nres == 0;
    cache.objs := cache.objs - {o};
    cache.objs := cache.objs[shadow := cache.objs[shadow].(refs := cache.objs[shadow].refs - 1)];
    assert cache.objs == Relinked(c, o, last).objs;
  }

  // The objects after o is folded into last.
  ghost predicate Folded(b: Cache, r: Cache, o: ObjId, last: ObjId)
  {
    && o in b.objs && r.objs.Keys == b.objs.Keys - {o} && last in r.objs && r.objs[last].shadowed == b.objs[o].shadowed
    && (forall x :: x in r.objs && x != last ==> r.objs[x].shadowed == b.objs[x].shadowed)
    && (forall x :: x in r.objs ==> Extra(r, x) == Extra(b, x))
  }

  lemma FoldedParts(b: Cache, r: Cache, o: ObjId, last: ObjId)
    requires Folded(b, r, o, last)
    ensures o in b.objs && r.objs.Keys == b.objs.Keys - {o} && last in r.objs
            && r.objs[last].shadowed == b.objs[o].shadowed
    ensures forall x :: x in r.objs && x != last ==> r.objs[x].shadowed == b.objs[x].shadowed
    ensures forall x :: x in r.objs ==> Extra(r, x) == Extra(b, x)
  {
  }

  lemma ReadyParts(c: Cache, rank: map<ObjId, nat>, areas: multiset<ObjId>, temps: multiset<ObjId>)
    requires Ready(c, rank, areas, temps)
    ensures Ranked(c, rank) && ShadowPages(c)
  {
  }

  lemma CollapseMeaning(b: Cache, c: Cache, o: ObjId, last: ObjId, rank: map<ObjId, nat>, areas: multiset<ObjId>,
                        temps: multiset<ObjId>)
    requires Ready(b, rank, areas, temps) && CacheOk(c) && ShadowPages(c) && SameShape(b, c) && SamePages(b, c, o, last)
    requires o in b.objs && last in b.objs && o in c.objs && c.objs[o].pages == []
    requires b.objs[last].shadowed == Some(o) && b.objs[o].shadowed.Some? && Extra(b, o) == 1
    ensures last in c.objs && o != last && c.objs[o].refs == 1 && c.objs[o].nres == 0
    ensures c.objs[o].shadowed.Some? && c.objs[o].shadowed.value in c.objs
    ensures c.objs[o].shadowed.value != o && c.objs[o].shadowed.value != last
    ensures CacheOk(Relinked(c, o, last)) && Ready(Relinked(c, o, last), rank, areas, temps)
    ensures SameView(b, Relinked(c, o, last), rank) && Folded(b, Relinked(c, o, last), o, last)
  {
    hide CacheOk, SameShape, SamePages, ShadowPages, Counted, View, Folded, Objs, Unique;
    SameShapeParts(b, c, rank);
    OnlyParent(b, o, last, areas, temps);
    SameShapeCounted(b, c, areas, temps);
    Parts(c);
    EmptyCount(c, o);
    NoPages(c, o);
    RelinkedOk(c, o, last, rank);
    RelinkedCounted(c, o, last, areas, temps);
    RelinkedFolded(b, c, o, last);
    forall x, p | x in Relinked(c, o, last).objs ensures View(Relinked(c, o, last), rank, x, p) == View(b, rank, x, p) {
      RelinkedView(b, c, o, last, rank, x, p);
    }
  }

  lemma RelinkedFolded(b: Cache, c: Cache, o: ObjId, last: ObjId)
    requires SameShape(b, c) && o in b.objs && last in b.objs && o != last
    ensures o in c.objs && last in c.objs && Folded(b, Relinked(c, o, last), o, last)
  {
  }

  lemma EmptyCount(c: Cache, o: ObjId)
    requires Objs(c) && o in c.objs && c.objs[o].pages == []
    ensures c.objs[o].nres == 0
  {
    assert ObjOk(c, o);
  }

  lemma SameShapeParts(c: Cache, r: Cache, rank: map<ObjId, nat>)
    requires SameShape(c, r) && Ranked(c, rank)
    ensures r.objs.Keys == c.objs.Keys && Ranked(r, rank)
    ensures forall x :: x in c.objs ==> r.objs[x].shadowed == c.objs[x].shadowed && Extra(r, x) == Extra(c, x)
  {
  }

  // ---------- the walk under one area, and the pass ----------

  function Rereferenced(c: Cache, x: ObjId, d: int): Cache
    requires x in c.objs
  {
    c.(objs := c.objs[x := c.objs[x].(refs := c.objs[x].refs + d)])
  }

  lemma RereferencedOk(c: Cache, x: ObjId, d: int, rank: map<ObjId, nat>)
    requires CacheOk(c) && Ranked(c, rank) && ShadowPages(c) && x in c.objs
    ensures var r := Rereferenced(c, x, d); CacheOk(r) && Ranked(r, rank) && ShadowPages(r) && SameView(c, r, rank)
  {
    hide ListOf, Content, View;
    var r := Rereferenced(c, x, d);
    forall y | y in r.objs ensures ObjOk(r, y) {
      assert ObjOk(c, y);
    }
    forall y, p, g, g' | At(r, y, p, g) && At(r, y, p, g') ensures g == g' {
      assert At(c, y, p, g) && At(c, y, p, g');
    }
    forall y, p | y in r.objs ensures View(r, rank, y, p) == View(c, rank, y, p) {
      ViewSame(c, r, rank, y, p);
    }
  }

  lemma RereferencedCounted(c: Cache, x: ObjId, d: int, areas: multiset<ObjId>, temps: multiset<ObjId>,
                            temps': multiset<ObjId>)
    requires Counted(c, areas, temps) && x in c.objs
    requires forall y :: temps'[y] == temps[y] + (if y == x then d else 0)
    ensures Counted(Rereferenced(c, x, d), areas, temps')
  {
    var r := Rereferenced(c, x, d);
    forall y | y in r.objs ensures Extra(r, y) == |Parents(r, y)| + areas[y] + temps'[y] {
      assert Parents(r, y) == Parents(c, y);
    }
  }

  lemma SameViewTrans(b: Cache, c: Cache, r: Cache, rank: map<ObjId, nat>)
    requires Ranked(b, rank) && Ranked(c, rank) && Ranked(r, rank) && SameView(b, c, rank) && SameView(c, r, rank)
    ensures SameView(b, r, rank)
  {
    hide View;
  }

  // One more reference: mmo_ops->ref.
  method Ref(cache: PageCache, x: ObjId, ghost rank: map<ObjId, nat>, ghost areas: multiset<ObjId>,
             ghost temps: multiset<ObjId>)
    requires cache.Valid() && Ready(cache.Value(), rank, areas, temps) && x in cache.objs
    modifies cache`objs
    ensures cache.Valid() && Ready(cache.Value(), rank, areas, temps + multiset{x})
    ensures cache.Value() == Rereferenced(old(cache.Value()), x, 1) && SameView(old(cache.Value()), cache.Value(), rank)
  {
    hide CacheOk, Ordered, SameView, Counted;
    RereferencedOk(cache.Value(), x, 1, rank);
    RereferencedCounted(cache.Value(), x, 1, areas, temps, temps + multiset{x});
    cache.objs := cache.objs[x := cache.objs[x].(refs := cache.objs[x].refs + 1)];
  }

  // One reference less: mmo_ops->put, of an object that something else refers to.
  method Put(cache: PageCache, x: ObjId, ghost rank: map<ObjId, nat>, ghost areas: multiset<ObjId>,
             ghost temps: multiset<ObjId>)
    requires cache.Valid() && Ready(cache.Value(), rank, areas, temps + multiset{x}) && x in cache.objs
    requires cache.objs[x].refs - 1 > cache.objs[x].nres
    modifies cache`objs
    ensures cache.Valid() && Ready(cache.Value(), rank, areas, temps)
    ensures cache.Value() == Rereferenced(old(cache.Value()), x, -1)
            && SameView(old(cache.Value()), cache.Value(), rank)
  {
    hide CacheOk, Ordered, SameView, Counted;
    RereferencedOk(cache.Value(), x, -1, rank);
    RereferencedCounted(cache.Value(), x, -1, areas, temps + multiset{x}, temps);
    cache.objs := cache.objs[x := cache.objs[x].(refs := cache.objs[x].refs - 1)];
  }

  // Something other than a temporary reference refers to x.
  ghost predicate Held(c: Cache, areas: multiset<ObjId>, x: ObjId) { areas[x] > 0 || Parents(c, x) != {} }

  lemma HeldExtra(c: Cache, areas: multiset<ObjId>, temps: multiset<ObjId>, x: ObjId)
    requires Counted(c, areas, temps) && x in c.objs && Held(c, areas, x)
    ensures Extra(c, x) > temps[x]
  {
  }

  // Where the walk is: last is above o, holds the temporary reference and is also held
  // otherwise, all shows as it did in b, and the objects ahead are crowded or not.
  ghost predicate Walking(b: Cache, c: Cache, rank: map<ObjId, nat>, areas: multiset<ObjId>, temps: multiset<ObjId>,
                          last: ObjId, o: Option<ObjId>, crowded: bool)
  {
    && Ranked(b, rank) && Ready(c, rank, areas, temps + multiset{last}) && last in c.objs && c.objs[last].shadowed == o
    && Held(c, areas, last) && SameView(b, c, rank) && SameCrowds(b, c, rank, areas)
       && Crowded(c, rank, areas, last) == crowded
  }

  lemma FoldedHeld(c: Cache, r: Cache, rank: map<ObjId, nat>, areas: multiset<ObjId>, o: ObjId, last: ObjId)
    requires Ranked(c, rank) && Folded(c, r, o, last) && last in c.objs && c.objs[last].shadowed == Some(o)
    requires Held(c, areas, last)
    ensures Held(r, areas, last)
  {
    if areas[last] == 0 {
      var y :| y in Parents(c, last);
      assert y in Parents(r, last);
    }
  }

  // From x the chain goes down to last, through objects with two parents each.
  ghost predicate Segment(c: Cache, rank: map<ObjId, nat>, areas: multiset<ObjId>, x: ObjId, last: ObjId)
    decreases if x in rank then rank[x] else 0
  {
    && x in c.objs && x in rank && last in rank
    && (x == last || (c.objs[x].shadowed.Some? &&
                      var y := c.objs[x].shadowed.value;
                      y in rank && rank[last] <= rank[y] < rank[x] && Own(c, areas, y) == 2
                          && Segment(c, rank, areas, y, last)))
  }

  lemma {:induction false} SegmentSame(c: Cache, r: Cache, rank: map<ObjId, nat>, areas: multiset<ObjId>, x: ObjId,
                                       last: ObjId)
    requires Segment(c, rank, areas, x, last) && Ranked(c, rank)
    requires forall y :: y in c.objs && rank[y] >= rank[last] ==>
               y in r.objs && (y != last ==> r.objs[y].shadowed == c.objs[y].shadowed)
                   && Own(r, areas, y) == Own(c, areas, y)
    ensures Segment(r, rank, areas, x, last)
    decreases rank[x]
  {
    hide Own;
    if x != last { SegmentSame(c, r, rank, areas, c.objs[x].shadowed.value, last); }
  }

  lemma FoldedSegment(c: Cache, r: Cache, rank: map<ObjId, nat>, areas: multiset<ObjId>, temps: multiset<ObjId>,
                      o: ObjId, last: ObjId)
    requires Ranked(c, rank) && Folded(c, r, o, last) && last in c.objs && c.objs[last].shadowed == Some(o)
    requires Counted(c, areas, temps) && Counted(r, areas, temps)
    ensures forall x :: Segment(c, rank, areas, x, last) ==> Segment(r, rank, areas, x, last)
  {
    hide Segment, Counted, Own, Folded;
    forall y | y in c.objs && rank[y] >= rank[last]
      ensures y in r.objs && (y != last ==> r.objs[y].shadowed == c.objs[y].shadowed)
              && Own(r, areas, y) == Own(c, areas, y)
    {
      FoldedOwn(c, r, areas, temps, o, last, y);
    }
    forall x | Segment(c, rank, areas, x, last) ensures Segment(r, rank, areas, x, last) {
      SegmentSame(c, r, rank, areas, x, last);
    }
  }

  // An object that remains has as many parents and areas as before.
  lemma FoldedOwn(c: Cache, r: Cache, areas: multiset<ObjId>, temps: multiset<ObjId>, o: ObjId, last: ObjId, y: ObjId)
    requires Folded(c, r, o, last) && Counted(c, areas, temps) && Counted(r, areas, temps) && y in c.objs && y != o
    ensures y in r.objs && (y != last ==> r.objs[y].shadowed == c.objs[y].shadowed)
            && Own(r, areas, y) == Own(c, areas, y)
  {
    hide Parents;
    assert Extra(r, y) == Extra(c, y);
  }

  lemma AdvanceSegment(c: Cache, r: Cache, rank: map<ObjId, nat>, areas: multiset<ObjId>, temps: multiset<ObjId>,
                       o: ObjId, last: ObjId)
    requires Ranked(c, rank) && last in c.objs && c.objs[last].shadowed == Some(o) && o in c.objs && Extra(c, o) == 2
    requires SameLinks(c, r) && Ranked(r, rank) && Counted(c, areas, temps + multiset{last}) && temps[o] == 0
    ensures forall x :: Segment(c, rank, areas, x, last) ==> Segment(r, rank, areas, x, o)
  {
    hide Segment;
    forall y ensures Own(r, areas, y) == Own(c, areas, y) {
      assert Parents(r, y) == Parents(c, y);
    }
    assert Own(c, areas, o) == 2;
    hide Own, Counted;
    forall x | Segment(c, rank, areas, x, last) ensures Segment(r, rank, areas, x, o) {
      SegmentSame(c, r, rank, areas, x, last);
      SegmentMore(r, rank, areas, x, last, o);
    }
  }

  lemma {:induction false} SegmentMore(c: Cache, rank: map<ObjId, nat>, areas: multiset<ObjId>, x: ObjId, last: ObjId,
                                       o: ObjId)
    requires Segment(c, rank, areas, x, last) && Ranked(c, rank) && last in c.objs && c.objs[last].shadowed == Some(o)
    requires Own(c, areas, o) == 2
    ensures Segment(c, rank, areas, x, o)
    decreases rank[x]
  {
    hide Own;
    if x != last { SegmentMore(c, rank, areas, c.objs[x].shadowed.value, last, o); }
  }

  lemma AdvanceCrowded(c: Cache, r: Cache, rank: map<ObjId, nat>, areas: multiset<ObjId>, temps: multiset<ObjId>,
                       o: ObjId, last: ObjId)
    requires Ranked(c, rank) && Ranked(r, rank) && SameLinks(c, r) && o in c.objs && last in c.objs
    requires c.objs[last].shadowed == Some(o) && c.objs[o].shadowed.Some? && Counted(c, areas, temps)
    requires Extra(c, o) == 2
    ensures SameCrowds(c, r, rank, areas) && (Crowded(r, rank, areas, o) <==> Crowded(c, rank, areas, last))
  {
    SameCrowdsLinks(c, r, rank, areas);
    assert Own(c, areas, o) <= 2;
  }

  // The first branch keeps the walk going.
  method Fold(cache: PageCache, o: ObjId, last: ObjId, ghost b: Cache, ghost rank: map<ObjId, nat>,
              ghost areas: multiset<ObjId>, ghost temps: multiset<ObjId>, ghost crowded: bool)
    requires cache.Valid() && Walking(b, cache.Value(), rank, areas, temps, last, Some(o), crowded)
    requires o in cache.objs && cache.objs[o].shadowed.Some? && cache.objs[o].refs - cache.objs[o].nres == 1
    modifies cache, cache.chains
    ensures cache.Valid() && Walking(b, cache.Value(), rank, areas, temps, last, old(cache.objs)[o].shadowed, crowded)
    ensures forall x :: Segment(old(cache.Value()), rank, areas, x, last) ==>
              Segment(cache.Value(), rank, areas, x, last)
  {
    hide CacheOk, Ordered, SameView, Counted, Held, Crowded, Tidy, ShadowPages;
    ghost var c := cache.Value();
    Collapse(cache, o, last, rank, areas, temps + multiset{last});
    ghost var r := cache.Value();
    assert Folded(c, r, o, last);
    OnlyParent(c, o, last, areas, temps + multiset{last});
    SameCrowdsFolded(c, r, rank, areas, temps + multiset{last}, o, last);
    SameCrowdsTrans(b, c, r, rank, areas);
    FoldedHeld(c, r, rank, areas, o, last);
    SameViewTrans(b, c, r, rank);
    FoldedSegment(c, r, rank, areas, temps + multiset{last}, o, last);
  }

  // The second branch moves the temporary reference down.
  method Advance(cache: PageCache, o: ObjId, last: ObjId, ghost b: Cache, ghost rank: map<ObjId, nat>,
                 ghost areas: multiset<ObjId>, ghost temps: multiset<ObjId>, ghost crowded: bool)
    requires cache.Valid() && Walking(b, cache.Value(), rank, areas, temps, last, Some(o), crowded)
    requires o in cache.objs && cache.objs[o].shadowed.Some? && cache.objs[o].refs - cache.objs[o].nres == 2
    requires temps[o] == 0
    modifies cache`objs
    ensures cache.Valid() && Walking(b, cache.Value(), rank, areas, temps, o, old(cache.objs)[o].shadowed, crowded)
    ensures forall x :: Segment(old(cache.Value()), rank, areas, x, last) ==> Segment(cache.Value(), rank, areas, x, o)
  {
    hide CacheOk, Ordered, SameView, Counted, Crowded, Tidy, ShadowPages;
    ghost var c := cache.Value();
    Ref(cache, o, rank, areas, temps + multiset{last});
    ghost var d := cache.Value();
    assert temps + multiset{last} + multiset{o} == temps + multiset{o} + multiset{last};
    assert Held(d, areas, last) by { assert Parents(d, last) == Parents(c, last); }
    HeldExtra(d, areas, temps + multiset{o} + multiset{last}, last);
    Put(cache, last, rank, areas, temps + multiset{o});
    ghost var r := cache.Value();
    AdvanceCrowded(c, r, rank, areas, temps + multiset{last}, o, last);
    SameCrowdsTrans(b, c, r, rank, areas);
    assert last in Parents(r, o);
    SameViewTrans(b, c, d, rank);
    SameViewTrans(b, d, r, rank);
    AdvanceSegment(c, r, rank, areas, temps, o, last);
  }

  lemma {:induction false} SegmentTidy(c: Cache, rank: map<ObjId, nat>, areas: multiset<ObjId>, x: ObjId, last: ObjId)
    requires Ranked(c, rank) && Segment(c, rank, areas, x, last) && last in c.objs && Tidy(c, rank, areas, last)
    ensures Tidy(c, rank, areas, x)
    decreases rank[x]
  {
    hide Own;
    if x != last { SegmentTidy(c, rank, areas, c.objs[x].shadowed.value, last); }
  }

  lemma {:induction false} TidySame(c: Cache, r: Cache, rank: map<ObjId, nat>, areas: multiset<ObjId>, x: ObjId)
    requires Ranked(c, rank) && Ranked(r, rank) && SameLinks(c, r) && x in c.objs && Tidy(c, rank, areas, x)
    ensures Tidy(r, rank, areas, x)
    decreases rank[x]
  {
    if c.objs[x].shadowed.Some? && c.objs[c.objs[x].shadowed.value].shadowed.Some? {
      var y := c.objs[x].shadowed.value;
      assert Parents(r, y) == Parents(c, y);
      TidySame(c, r, rank, areas, y);
    }
  }

  lemma StartWalk(b: Cache, c: Cache, rank: map<ObjId, nat>, areas: multiset<ObjId>, top: ObjId)
    requires Ready(b, rank, areas, multiset{}) && top in b.objs && areas[top] > 0 && c == Rereferenced(b, top, 1)
    requires Ready(c, rank, areas, multiset{} + multiset{top}) && SameView(b, c, rank)
    ensures Walking(b, c, rank, areas, multiset{}, top, b.objs[top].shadowed, Crowded(b, rank, areas, top))
    ensures Segment(c, rank, areas, top, top)
  {
    hide Counted, ShadowPages, SameView, Crowded, Tidy;
    SameCrowdsLinks(b, c, rank, areas);
  }

  // The object ahead has at least the one parent, and with more than two it is crowded.
  lemma AheadCount(c: Cache, rank: map<ObjId, nat>, areas: multiset<ObjId>, temps: multiset<ObjId>, last: ObjId,
                   o: ObjId)
    requires Ranked(c, rank) && Counted(c, areas, temps) && last in c.objs && c.objs[last].shadowed == Some(o)
    requires o in c.objs
    requires temps[o] == 0
    ensures Extra(c, o) >= 1 && (c.objs[o].shadowed.Some? && Extra(c, o) > 2 ==> Crowded(c, rank, areas, last))
  {
    assert last in Parents(c, o);
  }

  lemma EndWalk(c: Cache, rank: map<ObjId, nat>, areas: multiset<ObjId>, last: ObjId, top: ObjId)
    requires Ranked(c, rank) && Counted(c, areas, multiset{} + multiset{last}) && last in c.objs && Held(c, areas, last)
    requires c.objs[last].shadowed.Some? ==> c.objs[c.objs[last].shadowed.value].shadowed.None?
    requires Segment(c, rank, areas, top, last) && Ranked(Rereferenced(c, last, -1), rank)
    ensures c.objs[last].refs - 1 > c.objs[last].nres
    ensures top in c.objs && Tidy(Rereferenced(c, last, -1), rank, areas, top)
  {
    hide Segment;
    HeldExtra(c, areas, multiset{} + multiset{last}, last);
    SegmentTop(c, rank, areas, top, last);
    SegmentTidy(c, rank, areas, top, last);
    TidySame(c, Rereferenced(c, last, -1), rank, areas, top);
  }

  lemma SegmentTop(c: Cache, rank: map<ObjId, nat>, areas: multiset<ObjId>, x: ObjId, last: ObjId)
    requires Segment(c, rank, areas, x, last)
    ensures x in c.objs
  {
  }

  // The walk under the area whose object is top. It stops in a failed assertion exactly if
  // some object on the way has more than two parents. Otherwise all references are as
  // before and no object on the way has a single parent.
  method Walk(cache: PageCache, top: ObjId, ghost rank: map<ObjId, nat>, ghost areas: multiset<ObjId>)
      returns (panicked: bool)
    requires cache.Valid() && Ready(cache.Value(), rank, areas, multiset{}) && top in cache.objs && areas[top] > 0
    modifies cache, cache.chains
    ensures cache.Valid() && Ranked(cache.Value(), rank) && SameView(old(cache.Value()), cache.Value(), rank)
    ensures panicked <==> Crowded(old(cache.Value()), rank, areas, top)
    ensures SameCrowds(old(cache.Value()), cache.Value(), rank, areas)
    ensures !panicked ==> Ready(cache.Value(), rank, areas, multiset{})
    ensures !panicked ==> top in cache.objs && Tidy(cache.Value(), rank, areas, top)
  {
    hide CacheOk, Ordered, SameView, Counted, ShadowPages, Segment, Tidy;
    ghost var b := cache.Value();
    ghost var crowded := Crowded(b, rank, areas, top);
    var last, o := top, cache.objs[top].shadowed;
    Ref(cache, last, rank, areas, multiset{});
    StartWalk(b, cache.Value(), rank, areas, top);
    while o.Some? && cache.objs[o.value].shadowed.Some?
      invariant cache.Valid() && Walking(b, cache.Value(), rank, areas, multiset{}, last, o, crowded)
      invariant Segment(cache.Value(), rank, areas, top, last)
      decreases if o.Some? && o.value in rank then 1 + rank[o.value] else 0
    {
      var x := cache.objs[o.value];
      var shadow := x.shadowed;
      AheadCount(cache.Value(), rank, areas, multiset{} + multiset{last}, last, o.value);
      if x.refs - x.nres == 1 {
        Fold(cache, o.value, last, b, rank, areas, multiset{}, crowded);
      } else {
        if x.refs - x.nres != 2 {
          return true;
        }
        Advance(cache, o.value, last, b, rank, areas, multiset{}, crowded);
        last := o.value;
      }
      o := shadow;
    }
    ghost var c := cache.Value();
    RereferencedOk(c, last, -1, rank);
    EndWalk(c, rank, areas, last, top);
    Put(cache, last, rank, areas, multiset{});
    SameViewTrans(b, c, cache.Value(), rank);
    SameCrowdsLinks(c, cache.Value(), rank, areas);
    SameCrowdsTrans(b, c, cache.Value(), rank, areas);
    panicked := false;
  }

  // One pass over the areas of all running processes, with the objects `tops`, where `areas`
  // are those of all processes. It stops in a failed assertion exactly if the chain under
  // some area it visits is crowded, and otherwise leaves all of these tidy.
  method Pass(cache: PageCache, tops: seq<ObjId>, ghost rank: map<ObjId, nat>, ghost areas: multiset<ObjId>)
    returns (panicked: bool)
    requires cache.Valid() && Ready(cache.Value(), rank, areas, multiset{}) && multiset(tops) <= areas
    modifies cache, cache.chains
    ensures cache.Valid() && Ranked(cache.Value(), rank) && SameView(old(cache.Value()), cache.Value(), rank)
    ensures panicked <==> exists i :: 0 <= i < |tops| && tops[i] in old(cache.objs)
                                      && Crowded(old(cache.Value()), rank, areas, tops[i])
    ensures !panicked ==> Ready(cache.Value(), rank, areas, multiset{})
    ensures !panicked ==> forall i :: 0 <= i < |tops| ==>
              tops[i] in cache.objs && Tidy(cache.Value(), rank, areas, tops[i])
  {
    hide CacheOk, Ordered, SameView, Counted, ShadowPages, Tidy, Crowded;
    ghost var b := cache.Value();
    panicked := false;
    SameViewSelf(b, rank);
    var i := 0;
    while i < |tops|
      invariant 0 <= i <= |tops| && cache.Valid() && Ready(cache.Value(), rank, areas, multiset{})
      invariant SameView(b, cache.Value(), rank) && SameCrowds(b, cache.Value(), rank, areas)
      invariant forall j :: 0 <= j < i && tops[j] in b.objs ==> !Crowded(b, rank, areas, tops[j])
      invariant forall j :: 0 <= j < i ==> tops[j] in cache.objs && Tidy(cache.Value(), rank, areas, tops[j])
    {
      ghost var c := cache.Value();
      AreaOf(tops, areas, i);
      AreaLives(c, areas, tops[i]);
      panicked := Walk(cache, tops[i], rank, areas);
      SameViewTrans(b, c, cache.Value(), rank);
      SameCrowdsTrans(b, c, cache.Value(), rank, areas);
      if panicked {
        return;
      }
      forall j | 0 <= j < i ensures tops[j] in cache.objs {
        AreaOf(tops, areas, j);
        AreaLives(cache.Value(), areas, tops[j]);
      }
      i := i + 1;
    }
  }

  lemma AreaOf(tops: seq<ObjId>, areas: multiset<ObjId>, i: nat)
    requires multiset(tops) <= areas && i < |tops|
    ensures areas[tops[i]] > 0
  {
    assert tops[i] in multiset(tops);
  }

  lemma SameViewSelf(c: Cache, rank: map<ObjId, nat>)
    requires Ranked(c, rank)
    ensures SameView(c, c, rank)
  {
  }

  lemma AreaLives(c: Cache, areas: multiset<ObjId>, x: ObjId)
    requires Counted(c, areas, multiset{}) && x in areas
    ensures x in c.objs
  {
  }
}
