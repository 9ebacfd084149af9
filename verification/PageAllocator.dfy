/**
 The page allocator's operations (kernel/mm/page.c): groups of pages, allocation with
 its split loop and release with its join loop, each proved against BuddyBlocks.
 */
module PageAllocator {
  import opened Arith
  import opened Common
  import opened Lists
  import opened BuddyBlocks

  // ---------- free pages and live blocks ----------

  // Every page is either free or in exactly one live block.
  ghost predicate Partition(n: nat, F: set<nat>, live: map<nat, nat>)
  {
    && (forall o :: o in live ==> ValidBlock(n, live[o], o) && F !! Pages(live[o], o))
    && (forall o, u :: o in live && u in live && o != u ==> Pages(live[o], o) !! Pages(live[u], u))
    && (forall p: nat :: p < n && p !in F ==> exists o :: o in live && p in Pages(live[o], o))
  }

  lemma PartitionTake(n: nat, F: set<nat>, live: map<nat, nat>, k: nat, o: nat)
    requires Partition(n, F, live) && ValidBlock(n, k, o) && Whole(F, k, o)
    ensures o !in live && Partition(n, F - Pages(k, o), live[o := k])
  {
    hide Pow2, ValidBlock, InBlock;
    WholePages(F, k, o);
    if o in live { OwnPage(live[o], o); }
    var F', live' := F - Pages(k, o), live[o := k];
    forall p: nat | p < n && p !in F' ensures exists u :: u in live' && p in Pages(live'[u], u) {
      if p in Pages(k, o) {
        assert o in live' && p in Pages(live'[o], o);
      } else {
        var u :| u in live && p in Pages(live[u], u);
        assert u in live' && p in Pages(live'[u], u);
      }
    }
  }

  lemma OwnPage(k: nat, o: nat)
    ensures o in Pages(k, o)
  {
    assert InBlock(k, o, o);
  }

  lemma WholePages(F: set<nat>, k: nat, o: nat)
    requires Whole(F, k, o)
    ensures Pages(k, o) <= F && o in F
  {
    assert InBlock(k, o, o);
  }

  lemma PartitionPut(n: nat, F: set<nat>, live: map<nat, nat>, o: nat)
    requires Partition(n, F, live) && o in live
    ensures Partition(n, F + Pages(live[o], o), live - {o})
  {
    var F', live' := F + Pages(live[o], o), live - {o};
    forall p: nat | p < n && p !in F' ensures exists u :: u in live' && p in Pages(live'[u], u) {
      var u :| u in live && p in Pages(live[u], u);
      assert u in live' && p in Pages(live'[u], u);
    }
  }

  // A block has 2^k pages.
  lemma {:induction false} RangeSize(lo: nat, hi: nat, S: set<nat>)
    requires lo <= hi && forall p :: p in S <==> lo <= p < hi
    ensures |S| == hi - lo
    decreases hi - lo
  {
    if lo == hi {
      assert S == {};
    } else {
      RangeSize(lo, hi - 1, S - {hi - 1});
    }
  }

  lemma BlockSize(F: set<nat>, k: nat, o: nat)
    ensures |Pages(k, o)| == Pow2(k)
    ensures Whole(F, k, o) ==> |F - Pages(k, o)| == |F| - Pow2(k)
    ensures F !! Pages(k, o) ==> |F + Pages(k, o)| == |F| + Pow2(k)
  {
    RangeSize(o, o + Pow2(k), Pages(k, o));
    if Whole(F, k, o) {
      assert F == F - Pages(k, o) + Pages(k, o);
    }
  }

  lemma NoPairAtTop(bits: seq<seq<bool>>, o: nat)
    ensures FlipAbove(bits, TOP, o) == bits
  {
  }

  // One turn of the remainder loop of _pagegroup_create.
  lemma CutRemainder(n: nat, k: nat)
    ensures var end := n - n % Pow2(k);
            if Index(k, n) % 2 == 1 then end - Pow2(k) == Parent(k, n) == n - n % Pow2(k + 1) && end >= Pow2(k)
            else end == n - n % Pow2(k + 1)
  {
    hide Pow2;
    Pow2Step(k);
    var d, i := Pow2(k), Index(k, n);
    assert n == i * d + n % d;
    var j, r := i / 2, i % 2;
    assert i * d == j * (2 * d) + r * d by { assert i == 2 * j + r; assert (2 * j + r) * d == j * (2 * d) + r * d; }
    assert r * d == if r == 1 then d else 0;
    DivModUnique(n, 2 * d, j, r * d + n % d);
    MulMono(0, j, 2 * d);
  }

  lemma BelowEnd(c: nat, n: nat)
    ensures c * Pow2(TOP) < n - n % Pow2(TOP) <==> c < Index(TOP, n)
    ensures (c + 1) * Pow2(TOP) == c * Pow2(TOP) + Pow2(TOP)
  {
    hide Pow2;
    var d := Pow2(TOP);
    assert n - n % d == Index(TOP, n) * d;
    if c < Index(TOP, n) { MulMono(c + 1, Index(TOP, n), d); }
    if c * d < Index(TOP, n) * d { MulStrict(c, Index(TOP, n), d); }
  }

  lemma PendingShape(s: State, F: set<nat>, k: nat, h: nat)
    requires Pending(s, F, k, h)
    ensures Shape(s) && h < s.npages
  {
  }

  lemma JoinKeepsShape(s: State, F: set<nat>, k: nat, h: nat)
    requires Pending(s, F, k, h) && k < TOP && !BitAt(s.bits, k + 1, h)
    ensures Shape(JoinState(s, k, h)) && Parent(k, h) < s.npages
    ensures Parent(k, h) == if h < BuddyOf(k, h) then h else BuddyOf(k, h)
  {
    JoinPending(s, F, k, h);
    BuddyHalves(k, h);
  }

  // Block o of order k goes from the free pages to the live blocks, and back.
  ghost predicate Allocated(n: nat, F: set<nat>, live: map<nat, nat>, F': set<nat>, live': map<nat, nat>, k: nat,
                            o: nat)
  {
    && ValidBlock(n, k, o) && Whole(F, k, o) && o !in live
    && F' == F - Pages(k, o) && live' == live[o := k]
  }

  ghost predicate Released(F: set<nat>, live: map<nat, nat>, F': set<nat>, live': map<nat, nat>, k: nat, o: nat)
  {
    && F !! Pages(k, o) && o in live && live[o] == k
    && F' == F + Pages(k, o) && live' == live - {o}
  }

  // ---------- one page group ----------

  class PageGroup {
    const base: nat                     // pg_baseaddr
    const npages: nat                   // pg_endaddr - pg_baseaddr
    var freelist: seq<seq<nat>>         // pg_freelist, head first
    var buddyMap: seq<seq<bool>>        // pg_map
    ghost var pages: set<nat>           // the free pages
    ghost var live: map<nat, nat>       // allocated blocks, with their orders

    ghost function Abs(): State
      reads this
    {
      State(npages, freelist, buddyMap)
    }

    ghost predicate Valid()
      reads this
    {
      |freelist| == NSIZES && Inv(Abs(), pages) && Partition(npages, pages, live)
    }

    // _pagegroup_create, without the carving of the bitmaps out of the range.
    constructor (base: nat, npages: nat)
      ensures this.base == base && this.npages == npages
      ensures Abs() == InitState(npages) && pages == AllPages(npages) && live == map[]
      ensures npages % Pow2(TOP) == 0 ==> Valid()
    {
      this.base, this.npages := base, npages;
      var lists: seq<seq<nat>> := seq(NSIZES, _ => []);
      var end := npages;
      var order := 0;
      while order < TOP
        invariant 0 <= order <= TOP && |lists| == NSIZES
        invariant end == npages - npages % Pow2(order)
        invariant forall k :: 0 <= k < order ==> lists[k] == InitList(npages, k)
        invariant forall k :: order <= k < NSIZES ==> lists[k] == []
      {
        CutRemainder(npages, order);
        if Index(order, npages) % 2 == 1 {
          end := end - Pow2(order);
          lists := lists[order := [end] + lists[order]];
        }
        order := order + 1;
      }
      var current := 0;
      ghost var c := 0;
      while current < end
        invariant |lists| == NSIZES && c <= Index(TOP, npages) && current == c * Pow2(TOP)
        invariant forall k :: 0 <= k < TOP ==> lists[k] == InitList(npages, k)
        invariant lists[TOP] == TopList(c)
        decreases end - current
      {
        BelowEnd(c, npages);
        lists := lists[TOP := [current] + lists[TOP]];
        current := current + Pow2(TOP);
        c := c + 1;
      }
      BelowEnd(c, npages);
      freelist := lists;
      buddyMap := seq(NSIZES, k requires 0 <= k < NSIZES => seq(Index(k, npages), _ => false));
      pages, live := AllPages(npages), map[];
      new;
      assert freelist == InitState(npages).free;
      assert buddyMap == InitState(npages).bits;
      if npages % Pow2(TOP) == 0 {
        InitInv(npages);
      }
    }

    // bit_flip on the map over a pair of buddies of the given order.
    method FlipPair(order: nat, o: nat)
      requires Shape(Abs()) && order < TOP && o < npages
      modifies this`buddyMap
      ensures buddyMap == FlipAbove(old(buddyMap), order, o)
    {
      IndexInRange(npages, order + 1, o);
      var i := Index(order + 1, o);
      buddyMap := buddyMap[order + 1 := buddyMap[order + 1][i := !buddyMap[order + 1][i]]];
    }

    // __page_split, with the source's assertion that the bit over the halves is clear.
    method SplitHead(order: nat)
      requires 0 < order <= TOP && |freelist| == NSIZES && freelist[order] != []
      requires Pending(Abs(), pages, order, freelist[order][0])
      modifies this`freelist, this`buddyMap
      ensures |freelist| == NSIZES && freelist[order - 1] != []
      ensures freelist[order - 1][0] == old(freelist)[order][0] + Pow2(order - 1)
      ensures Abs() == SplitState(old(Abs()), order)
      ensures Pending(Abs(), pages, order - 1, freelist[order - 1][0])
    {
      hide Inv, Pow2, Aligned, Pending, Whole, BuddyOf, FlipAbove, BitAt;
      var target := freelist[order][0];
      ghost var s := Abs();
      PendingShape(s, pages, order, target);
      SplitPending(s, pages, order, target);
      freelist := freelist[order := freelist[order][1..]];
      if order < TOP {
        FlipPair(order, target);
      } else {
        NoPairAtTop(buddyMap, target);
      }
      assert !BitAt(buddyMap, order, target);
      var buddy := target + Pow2(order - 1);
      freelist := freelist[order - 1 := [target] + freelist[order - 1]];
      freelist := freelist[order - 1 := [buddy] + freelist[order - 1]];
      assert freelist[order - 1] == [buddy, target] + s.free[order - 1];
      assert freelist == s.free[order := s.free[order][1..]][order - 1 := [buddy, target] + s.free[order - 1]];
    }

    // The inner loop of _page_split.
    method SplitDown(norder: nat, order: nat)
      requires order <= norder <= TOP && |freelist| == NSIZES && freelist[norder] != []
      requires Pending(Abs(), pages, norder, freelist[norder][0])
      modifies this`freelist, this`buddyMap
      ensures |freelist| == NSIZES && freelist[order] != []
      ensures freelist[order][0] + Pow2(order) == old(freelist)[norder][0] + Pow2(norder)
      ensures Pending(Abs(), pages, order, freelist[order][0])
    {
      hide Pending, SplitState;
      var k := norder;
      while k > order
        invariant order <= k <= norder && |freelist| == NSIZES && freelist[k] != []
        invariant freelist[k][0] + Pow2(k) == old(freelist)[norder][0] + Pow2(norder)
        invariant Pending(Abs(), pages, k, freelist[k][0])
      {
        SplitHead(k);
        k := k - 1;
      }
    }

    // The end of _page_alloc_order: the head block is handed out.
    method TakeHead(order: nat) returns (o: nat)
      requires order <= TOP && |freelist| == NSIZES && freelist[order] != []
      requires Pending(Abs(), pages, order, freelist[order][0]) && Partition(npages, pages, live)
      modifies this
      ensures Valid() && o == old(freelist)[order][0]
      ensures Allocated(npages, old(pages), old(live), pages, live, order, o)
    {
      hide Inv, Pow2, Aligned, Partition, Whole, Pages;
      o := freelist[order][0];
      ghost var s := Abs();
      PartitionTake(npages, pages, live, order, o);
      freelist := freelist[order := freelist[order][1..]];
      if order < TOP {
        FlipPair(order, o);
      }
      assert Abs() == BuddyBlocks.Without(s, order, o);
      pages, live := pages - Pages(order, o), live[o := order];
    }

    // __page_join. Each turn unlinks a buddy that is on the list it is taken to be on.
    method Join(order: nat, addr: nat)
      requires order <= TOP && Pending(Abs(), pages, order, addr)
      modifies this`freelist, this`buddyMap
      ensures |freelist| == NSIZES && Inv(Abs(), pages)
    {
      hide Inv, Pow2, Aligned, Pending, BuddyOf, Parent;
      var k: nat, a: nat := order, addr;
      PendingShape(Abs(), pages, k, a);
      while TOP > k && !BitAt(buddyMap, k + 1, a)
        invariant k <= TOP && Pending(Abs(), pages, k, a)
        invariant Shape(Abs()) && a < npages
        decreases TOP - k
      {
        ghost var s, a0 := Abs(), a;
        JoinPending(s, pages, k, a);
        JoinKeepsShape(s, pages, k, a);
        var buddy := BuddyOf(k, a);
        assert buddy in freelist[k];
        freelist := freelist[k := Lists.Without(Lists.Without(freelist[k], a), buddy)];
        a := if a < buddy then a else buddy;
        k := k + 1;
        freelist := freelist[k := [a] + freelist[k]];
        if TOP > k {
          FlipPair(k, a);
        }
        assert Abs() == JoinState(s, k - 1, a0);
      }
      JoinDone(Abs(), pages, k, a);
    }

    // _page_free_order, once the group is known.
    method Release(o: nat, order: nat)
      requires Valid() && o in live && live[o] == order
      modifies this
      ensures Valid()
      ensures Released(old(pages), old(live), pages, live, order, o)
    {
      hide Inv, Pow2, Aligned, Whole, FlipAbove;
      ghost var s, F := Abs(), pages;
      LiveBlock(s, pages, live, o);
      PartitionPut(npages, pages, live, o);
      freelist := freelist[order := [o] + freelist[order]];
      pages, live := pages + Pages(order, o), live - {o};
      if order < TOP {
        FlipPair(order, o);
      } else {
        NoPairAtTop(buddyMap, o);
      }
      assert Abs() == With(s, order, o);
      PutPending(s, F, order, o);
      Join(order, o);
    }
  }

  lemma LiveBlock(s: State, F: set<nat>, live: map<nat, nat>, o: nat)
    requires Inv(s, F) && Partition(s.npages, F, live) && o in live
    ensures Shape(s) && ValidBlock(s.npages, live[o], o) && o < s.npages && F !! Pages(live[o], o)
  {
  }

  // A block just linked is pending.
  lemma PutPending(s: State, F: set<nat>, k: nat, o: nat)
    requires Inv(s, F) && ValidBlock(s.npages, k, o) && F !! Pages(k, o)
    ensures Pending(With(s, k, o), F + Pages(k, o), k, o)
  {
    WithWithout(s, k, o);
    assert F + Pages(k, o) - Pages(k, o) == F;
  }

  // ---------- the page system ----------

  ghost function Total(ps: seq<set<nat>>): nat
  {
    if ps == [] then 0 else Total(ps[..|ps| - 1]) + |ps[|ps| - 1]|
  }

  lemma TotalAppend(ps: seq<set<nat>>, S: set<nat>)
    ensures Total(ps + [S]) == Total(ps) + |S|
  {
    assert (ps + [S])[..|ps|] == ps;
  }

  lemma {:induction false} TotalUpdate(ps: seq<set<nat>>, i: nat, S: set<nat>)
    requires i < |ps|
    ensures Total(ps[i := S]) == Total(ps) - |ps[i]| + |S| && Total(ps) >= |ps[i]|
  {
    var n := |ps| - 1;
    if i == n {
      assert ps[i := S][..n] == ps[..n];
    } else {
      TotalUpdate(ps[..n], i, S);
      assert ps[i := S][..n] == ps[..n][i := S];
    }
  }

  lemma TakenOne(sets: seq<set<nat>>, i: nat, n: nat, F': set<nat>, k: nat, o: nat, live: map<nat, nat>,
                 live': map<nat, nat>)
    requires i < |sets| && Allocated(n, sets[i], live, F', live', k, o)
    ensures Total(sets[i := F']) == Total(sets) - Pow2(k) && Total(sets) >= Pow2(k)
    ensures HasRun(sets[i], n, k)
  {
    TotalUpdate(sets, i, F');
    BlockSize(sets[i], k, o);
  }

  lemma ReleasedOne(sets: seq<set<nat>>, i: nat, F': set<nat>, k: nat, o: nat, live: map<nat, nat>, live': map<nat,
                    nat>)
    requires i < |sets| && Released(sets[i], live, F', live', k, o)
    ensures Total(sets[i := F']) == Total(sets) + Pow2(k)
  {
    TotalUpdate(sets, i, F');
    BlockSize(sets[i], k, o);
  }

  // Releasing what was just allocated restores the free pages and live blocks, hence
  // every free list as a set and every bit.
  lemma RoundTrip(s: State, s2: State, F: set<nat>, live: map<nat, nat>, F1: set<nat>, live1: map<nat, nat>,
                  F2: set<nat>, live2: map<nat, nat>, k: nat, o: nat)
    requires Inv(s, F) && Inv(s2, F2) && s.npages == s2.npages
    requires Allocated(s.npages, F, live, F1, live1, k, o) && Released(F1, live1, F2, live2, k, o)
    ensures F2 == F && live2 == live
    ensures forall j, x :: 0 <= j <= TOP ==> (x in s.free[j] <==> x in s2.free[j])
    ensures forall j: nat, x: nat :: j < TOP && ValidBlock(s.npages, j, x) ==>
              BitAt(s.bits, j + 1, x) == BitAt(s2.bits, j + 1, x)
  {
    WholePages(F, k, o);
    assert F2 == F;
    assert live2 == live;
    Determined(s, s2, F);
  }

  // Some aligned run of 2^k free pages exists.
  ghost predicate HasRun(F: set<nat>, n: nat, k: nat) { exists o: nat :: ValidBlock(n, k, o) && Whole(F, k, o) }

  lemma NoRun(s: State, F: set<nat>, k: nat)
    requires Inv(s, F) && k <= TOP && forall j :: k <= j <= TOP ==> s.free[j] == []
    ensures !HasRun(F, s.npages, k)
  {
    if o: nat :| ValidBlock(s.npages, k, o) && Whole(F, k, o) {
      var j := RunIsListed(s, F, k, o);
    }
  }

  // With every block freed the group is as it was created: the same lists, as sets, and the
  // same bits.
  lemma FreedAll(s: State, F: set<nat>)
    requires Inv(s, F) && Partition(s.npages, F, map[])
    ensures F == AllPages(s.npages) && Shape(InitState(s.npages))
    ensures forall k, o :: 0 <= k <= TOP ==> (o in s.free[k] <==> o in InitState(s.npages).free[k])
    ensures forall k: nat, o: nat :: k < TOP && ValidBlock(s.npages, k, o) ==>
              BitAt(s.bits, k + 1, o) == BitAt(InitState(s.npages).bits, k + 1, o)
  {
    hide InitState, Pow2;
    assert F == AllPages(s.npages);
    InitInv(s.npages);
    assert InitState(s.npages).npages == s.npages by { InitPages(s.npages); }
    Determined(s, InitState(s.npages), F);
  }

  lemma InitPages(n: nat)
    ensures InitState(n).npages == n
  {
  }

  // ---------- page_alloc_n and page_free_n ----------

  datatype AllocResult = Panic | Null | Block(addr: nat)

  // The loop shared by page_alloc_n and page_free_n; NSIZES stands for their panic.
  method OrderFor(npages: nat) returns (order: nat)
    ensures order <= NSIZES
    ensures order < NSIZES ==> IsOrderFor(npages, order)
    ensures order == NSIZES <==> AsInt(npages) > Pow2(TOP)
  {
    order := 0;
    while order < NSIZES && !(Pow2(order) >= AsInt(npages))
      invariant 0 <= order <= NSIZES
      invariant forall k :: 0 <= k < order ==> Pow2(k) < AsInt(npages)
    {
      order := order + 1;
    }
    if order < NSIZES { LargestOrder(order); }
  }

  ghost predicate IsOrderFor(npages: nat, k: nat)
  {
    k < NSIZES && Pow2(k) >= AsInt(npages) && forall j :: 0 <= j < k ==> Pow2(j) < AsInt(npages)
  }

  lemma LargestOrder(k: nat)
    ensures k <= TOP ==> Pow2(k) <= Pow2(TOP)
  {
    Pow2Monotone(k, TOP);
  }

  // A block of that order holds npages pages exactly when the count fits a signed int:
  // from 2^31 on, the cast makes it negative and a single page is handed out.
  lemma EnoughPages(npages: nat, order: nat)
    requires npages < 2 * INT_LIMIT && IsOrderFor(npages, order)
    ensures Pow2(order) >= npages <==> npages < INT_LIMIT
    ensures npages >= INT_LIMIT ==> order == 0
  {
    assert order > 0 ==> Pow2(0) < AsInt(npages);
  }

  // The groups of a list are distinct and their address ranges do not overlap.
  ghost predicate Apart(gs: seq<PageGroup>)
  {
    forall i, j :: 0 <= i < j < |gs| ==>
      && gs[i] != gs[j]
      && (gs[i].base + gs[i].npages <= gs[j].base || gs[j].base + gs[j].npages <= gs[i].base)
  }

  class PageSystem {
    var groups: seq<PageGroup>          // pagegroup_list
    var freecount: nat                  // page_freecount

    ghost var sets: seq<set<nat>>       // the free pages of each group

    ghost predicate Valid()
      reads this, groups
    {
      && |sets| == |groups|
      && (forall i :: 0 <= i < |groups| ==> groups[i].Valid() && groups[i].pages == sets[i])
      && Apart(groups)
      && freecount == Total(sets)
    }

    // page_init
    constructor ()
      ensures Valid() && groups == [] && freecount == 0
    {
      groups, freecount, sets := [], 0, [];
    }

    // page_add_range, for a range of whole largest blocks.
    method AddRange(start: nat, npages: nat)
      requires Valid() && npages % Pow2(TOP) == 0
      requires forall g :: g in groups ==> g.base + g.npages <= start || start + npages <= g.base
      modifies this
      ensures Valid() && freecount == old(freecount) + npages
      ensures npages > 0 ==> |groups| == |old(groups)| + 1 && groups[..|groups| - 1] == old(groups)
      ensures npages > 0 ==> var g := groups[|groups| - 1];
              fresh(g) && g.base == start && g.npages == npages && g.pages == AllPages(npages) && g.live == map[]
      ensures npages == 0 ==> groups == old(groups)
    {
      hide Inv, Partition, Pow2, Total;
      var g := new PageGroup(start, npages);
      if npages > 0 {
        RangeSize(0, npages, AllPages(npages));
        TotalAppend(sets, g.pages);
        groups, sets := groups + [g], sets + [g.pages];
        freecount := freecount + npages;
      }
    }

    // _page_split: the first list of a larger order, over all groups, that is not empty.
    method SplitLarger(order: nat) returns (i: nat, ghost norder: nat)
      requires Valid() && order <= TOP
      modifies groups
      ensures i <= |groups|
      ensures forall g :: g in groups ==> g.pages == old(g.pages) && g.live == old(g.live)
      ensures forall j :: 0 <= j < |groups| && j != i ==> unchanged(groups[j])
      ensures forall g :: g in groups ==> |g.freelist| == NSIZES
      ensures i == |groups| ==> forall g, k :: g in groups && order < k <= TOP ==> g.freelist[k] == []
      ensures i < |groups| ==>
                var g := groups[i];
                |g.freelist| == NSIZES && g.freelist[order] != []
                    && Pending(g.Abs(), g.pages, order, g.freelist[order][0])
      ensures i < |groups| ==>
                && FirstList(order + 1, i, norder)
                && groups[i].freelist[order][0] + Pow2(order) == old(groups[i].freelist)[norder][0] + Pow2(norder)
    {
      hide Inv, Partition, Pending, Allocated, HasRun, Pow2, Total;
      var k := order + 1;
      while k < NSIZES
        invariant order < k <= NSIZES
        invariant forall j, l :: 0 <= j < |groups| && order < l < k ==> groups[j].freelist[l] == []
      {
        i := 0;
        while i < |groups|
          invariant 0 <= i <= |groups|
          invariant forall j :: 0 <= j < i ==> groups[j].freelist[k] == []
        {
          if groups[i].freelist[k] != [] {
            HeadPending(groups[i].Abs(), groups[i].pages, k);
            norder := k;
            groups[i].SplitDown(k, order);
            return;
          }
          i := i + 1;
        }
        k := k + 1;
      }
      i, norder := |groups|, 0;
    }

    // Of the lists from that order on, that of group i and order `from` was the first that was
    // not empty: by order, and then by group.
    twostate predicate FirstList(order: nat, i: nat, from: nat)
      reads this, groups
    {
      && groups == old(groups) && i < |groups| && order <= from <= TOP
      && (forall j :: 0 <= j < |groups| ==> |old(groups[j].freelist)| == NSIZES)
      && (forall j, k :: 0 <= j < |groups| && order <= k < from ==> old(groups[j].freelist)[k] == [])
      && (forall j :: 0 <= j < i ==> old(groups[j].freelist)[from] == []) && old(groups[i].freelist)[from] != []
    }

    // A group with a block of that order at the head of its list, split off a larger one if
    // need be; |groups| when there is none.
    method GroupWithBlock(order: nat) returns (n: nat, ghost from: nat)
      requires Valid() && order <= TOP
      modifies groups
      ensures n <= |groups|
      ensures forall g :: g in groups ==> g.pages == old(g.pages) && g.live == old(g.live)
      ensures forall j :: 0 <= j < |groups| && j != n ==> unchanged(groups[j])
      ensures n == |groups| ==> forall g :: g in groups ==> !HasRun(g.pages, g.npages, order)
      ensures n < |groups| ==>
                var g := groups[n];
                |g.freelist| == NSIZES && g.freelist[order] != []
                    && Pending(g.Abs(), g.pages, order, g.freelist[order][0])
      ensures n < |groups| ==>
                && FirstList(order, n, from)
                && groups[n].freelist[order][0] + Pow2(order) == old(groups[n].freelist)[from][0] + Pow2(from)
    {
      hide Inv, Partition, Pending, HasRun, Pow2, Total;
      n := 0;
      while n < |groups| && groups[n].freelist[order] == []
        invariant 0 <= n <= |groups|
        invariant forall j :: 0 <= j < n ==> groups[j].freelist[order] == []
      {
        n := n + 1;
      }
      from := order;
      if n < |groups| {
        HeadPending(groups[n].Abs(), groups[n].pages, order);
      } else {
        n, from := SplitLarger(order);
        if n == |groups| {
          forall g | g in groups ensures !HasRun(g.pages, g.npages, order) {
            NoRun(g.Abs(), g.pages, order);
          }
        }
      }
    }

    // Group i alone has changed: it has handed out the block of that order at addr.
    twostate predicate HandedOut(order: nat, addr: nat, i: nat)
      reads this, groups
    {
      && i < |old(groups)| && groups == old(groups) && groups[i].base <= addr
      && Allocated(groups[i].npages, old(groups[i].pages), old(groups[i].live), groups[i].pages, groups[i].live,
                   order, addr - groups[i].base)
      && freecount == old(freecount) - Pow2(order)
      && forall j :: 0 <= j < |groups| && j != i ==> unchanged(groups[j])
    }

    // Where that block comes from: it is the head of the first list of its order, or else the
    // top end of the head of the first list of a larger order.
    twostate predicate Chosen(order: nat, addr: nat, i: nat, from: nat)
      reads this, groups
    {
      && FirstList(order, i, from)
      && addr + Pow2(order) == groups[i].base + old(groups[i].freelist)[from][0] + Pow2(from)
    }

    // _page_alloc_order. It fails exactly when no group has an aligned run of 2^order free
    // pages; otherwise the block handed out was free and nothing else changes.
    method AllocOrder(order: nat) returns (addr: Option<nat>, ghost i: nat, ghost from: nat)
      requires Valid() && order <= TOP
      modifies this`freecount, this`sets, groups
      ensures Valid()
      ensures addr.None? <==> forall g :: g in groups ==> !HasRun(old(g.pages), g.npages, order)
      ensures addr.None? ==> freecount == old(freecount) && forall g :: g in groups ==>
                g.pages == old(g.pages) && g.live == old(g.live)
      ensures addr.Some? ==> HandedOut(order, addr.value, i) && Chosen(order, addr.value, i, from)
    {
      hide Inv, Partition, Pending, Allocated, HasRun, Pow2, Total;
      var n;
      n, from := GroupWithBlock(order);
      i := n;
      if n == |groups| {
        return None, n, 0;
      }
      var o := groups[n].TakeHead(order);
      TakenOne(sets, n, groups[n].npages, groups[n].pages, order, o, old(groups[n].live), groups[n].live);
      sets := sets[n := groups[n].pages];
      freecount := freecount - Pow2(order);
      addr := Some(groups[n].base + o);
    }

    // Group i alone has changed: it has got the block of that order at addr back; or there is
    // no such group and nothing has changed.
    twostate predicate GivenBack(order: nat, addr: nat, i: nat)
      reads this, groups
    {
      && groups == old(groups) && (forall j :: 0 <= j < |groups| && j != i ==> unchanged(groups[j]))
      && (i >= |groups| ==> freecount == old(freecount))
      && (i < |groups| ==>
            && groups[i].base <= addr
            && Released(old(groups[i].pages), old(groups[i].live), groups[i].pages, groups[i].live, order,
                        addr - groups[i].base)
            && freecount == old(freecount) + Pow2(order))
    }

    // _page_free_order. An address outside every group is ignored; inside a group it must
    // be the start of a live block of that order. Only that block's pages become free.
    method FreeOrder(addr: nat, order: nat) returns (ghost i: nat)
      requires Valid()
      requires forall g :: g in groups && g.base <= addr < g.base + g.npages ==>
                 addr - g.base in g.live && g.live[addr - g.base] == order
      modifies this`freecount, this`sets, groups
      ensures Valid() && i <= |groups|
      ensures i == |groups| <==> forall g :: g in groups ==> !(g.base <= addr < g.base + g.npages)
      ensures GivenBack(order, addr, i)
    {
      hide Inv, Partition, Released, Pow2, Total;
      var n := 0;
      while n < |groups| && !(groups[n].base <= addr < groups[n].base + groups[n].npages)
        invariant 0 <= n <= |groups|
        invariant forall j :: 0 <= j < n ==> !(groups[j].base <= addr < groups[j].base + groups[j].npages)
      {
        n := n + 1;
      }
      i := n;
      if n == |groups| {
        return;
      }
      groups[n].Release(addr - groups[n].base, order);
      ReleasedOne(sets, n, groups[n].pages, order, addr - groups[n].base, old(groups[n].live), groups[n].live);
      sets := sets[n := groups[n].pages];
      freecount := freecount + Pow2(order);
    }

    // page_alloc_n; panics exactly when no order is large enough.
    method AllocN(npages: nat) returns (r: AllocResult, ghost order: nat, ghost i: nat, ghost from: nat)
      requires Valid()
      modifies this`freecount, this`sets, groups
      ensures Valid()
      ensures r.Panic? <==> AsInt(npages) > Pow2(TOP)
      ensures r.Panic? ==> freecount == old(freecount) && forall g :: g in groups ==> unchanged(g)
      ensures !r.Panic? ==> IsOrderFor(npages, order)
      ensures !r.Panic? ==> (r.Null? <==> forall g :: g in groups ==> !HasRun(old(g.pages), g.npages, order))
      ensures r.Null? ==> freecount == old(freecount) && forall g :: g in groups ==>
                g.pages == old(g.pages) && g.live == old(g.live)
      ensures r.Block? ==> HandedOut(order, r.addr, i) && Chosen(order, r.addr, i, from)
    {
      hide Inv, Partition, Allocated, HasRun, Total, Pow2, AsInt;
      var k := OrderFor(npages);
      if k == NSIZES {
        return Panic, 0, 0, 0;
      }
      order := k;
      var addr;
      addr, i, from := AllocOrder(k);
      r := if addr.None? then Null else Block(addr.value);
    }

    // page_free_n of a block obtained with page_alloc_n for the same count.
    method FreeN(addr: nat, npages: nat) returns (panic: bool, ghost order: nat, ghost i: nat)
      requires Valid()
      requires forall g, k :: g in groups && g.base <= addr < g.base + g.npages && IsOrderFor(npages, k) ==>
                 addr - g.base in g.live && g.live[addr - g.base] == k
      modifies this`freecount, this`sets, groups
      ensures Valid()
      ensures panic <==> AsInt(npages) > Pow2(TOP)
      ensures panic ==> freecount == old(freecount) && forall g :: g in groups ==> unchanged(g)
      ensures !panic ==> IsOrderFor(npages, order) && i <= |groups| && GivenBack(order, addr, i)
      ensures !panic ==> (i == |groups| <==> forall g :: g in groups ==> !(g.base <= addr < g.base + g.npages))
    {
      hide Inv, Partition, Released, Total, Pow2, AsInt;
      var k := OrderFor(npages);
      if k == NSIZES {
        return true, 0, 0;
      }
      panic, order := false, k;
      assert IsOrderFor(npages, k);
      i := FreeOrder(addr, k);
    }
  }
}
