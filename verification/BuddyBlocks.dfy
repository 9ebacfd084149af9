/**
 The buddy page allocator (kernel/mm/page.c).

 A page group keeps, per order k, a list of free blocks of 2^k pages and, per pair of
 buddies, one bit that tells only whether exactly one of the two is free. Joining trusts
 that bit: when it is clear after a block has been freed, the buddy is taken to be free
 and unlinked without looking. That is sound because of a global invariant, `Inv`: the
 free lists hold exactly the canonical decomposition of the set of free pages.

 Addresses are page numbers (the source shifts them by PAGE_SHIFT); free lists and blocks
 are given by their offset from the base of their group.
 */
module BuddyBlocks {
  import opened Arith
  import opened Lists

  const NSIZES: nat := 8          // PAGE_NSIZES
  const TOP: nat := NSIZES - 1

  // ---------- blocks ----------

  predicate Aligned(k: nat, o: nat) { o % Pow2(k) == 0 }

  predicate InBlock(k: nat, o: nat, p: nat) { o <= p < o + Pow2(k) }

  ghost function Pages(k: nat, o: nat): set<nat> { set p: nat | p < o + Pow2(k) && InBlock(k, o, p) }

  function Parent(k: nat, o: nat): nat
  {
    ModAtMost(o, Pow2(k + 1));
    o - o % Pow2(k + 1)
  }

  lemma ModAtMost(x: nat, y: nat)
    requires y > 0
    ensures x % y <= x
  {
    DivNonNegative(x, y);
    assert x == x / y * y + x % y;
    MulMono(0, x / y, y);
  }

  // The source's parity test on the block number.
  function BuddyOf(k: nat, o: nat): nat
  {
    if o / Pow2(k) % 2 == 1 then
      OddBlock(Pow2(k), o);
      o - Pow2(k)
    else
      o + Pow2(k)
  }

  lemma OddBlock(s: nat, o: nat)
    requires s > 0 && o / s % 2 == 1
    ensures o >= s
  {
    DivBounds(o, s);
    DivNonNegative(o, s);
    MulMono(1, o / s, s);
  }

  // A block and its buddy are the two halves of their parent.
  lemma BuddyHalves(k: nat, o: nat)
    requires Aligned(k, o)
    ensures Aligned(k + 1, Parent(k, o))
    ensures Aligned(k, BuddyOf(k, o)) && BuddyOf(k, BuddyOf(k, o)) == o != BuddyOf(k, o)
    ensures Parent(k, BuddyOf(k, o)) == Parent(k, o)
    ensures if o < BuddyOf(k, o) then o == Parent(k, o) && BuddyOf(k, o) == Parent(k, o) + Pow2(k)
            else BuddyOf(k, o) == Parent(k, o) && o == Parent(k, o) + Pow2(k)
    ensures o / Pow2(k + 1) == BuddyOf(k, o) / Pow2(k + 1) && Parent(k, o) == o / Pow2(k + 1) * Pow2(k + 1)
  {
    hide Pow2;
    Pow2Step(k);
    HalvesOf(Pow2(k), o);
    HalvesOf(Pow2(k), BuddyOf(k, o));
  }

  lemma Pow2Step(k: nat)
    ensures Pow2(k + 1) == 2 * Pow2(k)
  {
  }

  // The arithmetic of BuddyHalves, with s the block size.
  lemma HalvesOf(s: nat, o: nat)
    requires s > 0 && o % s == 0
    ensures var b := o + (if o / s % 2 == 1 then -(s as int) else s);
            var up := o - o % (2 * s);
            && 0 <= b && b % s == 0 && 0 <= up && up % (2 * s) == 0
            && up == (if o < b then o else b) && up == o / (2 * s) * (2 * s)
            && b / s == (if o / s % 2 == 1 then o / s - 1 else o / s + 1)
            && b / (2 * s) == o / (2 * s) && b - b % (2 * s) == up
            && (if o / s % 2 == 1 then o == up + s else o == up)
  {
    var i := o / s;
    assert o == i * s;
    var j, r := i / 2, i % 2;
    assert i == 2 * j + r;
    assert o == j * (2 * s) + r * s by { assert (2 * j + r) * s == j * (2 * s) + r * s; }
    assert r * s == if r == 1 then s else 0;
    DivModUnique(o, 2 * s, j, r * s);
    DivModUnique(j * (2 * s), 2 * s, j, 0);
    var b := o + (if r == 1 then -(s as int) else s);
    assert b == j * (2 * s) + (1 - r) * s by { assert (1 - r) * s == if r == 1 then 0 else s; }
    DivModUnique(b, 2 * s, j, (1 - r) * s) by { assert (1 - r) * s == if r == 1 then 0 else s; }
    DivModUnique(b, s, 2 * j + 1 - r, 0) by { assert (2 * j + 1 - r) * s == j * (2 * s) + (1 - r) * s; }
    assert j >= 0;
    MulMono(0, j, 2 * s);
  }

  // Multiples of d that are less than d apart are in order.
  lemma MultiplesApart(x: nat, y: nat, d: nat)
    requires d > 0 && x % d == 0 && y % d == 0 && x < y + d
    ensures x <= y
  {
    var a, b := x / d, y / d;
    assert x == a * d && y == b * d;
    assert (b + 1) * d == b * d + d;
    MulStrict(a, b + 1, d);
    MulMono(a, b, d);
  }

  lemma SizeMultiple(j: nat, k: nat)
    requires j <= k
    ensures Pow2(k) % Pow2(j) == 0
  {
    Pow2Add(j, k - j);
    ModOfMultiple(Pow2(j), Pow2(k - j));
  }

  // Aligned to a larger size, aligned to a smaller one.
  lemma AlignedBelow(j: nat, k: nat, o: nat)
    requires j <= k && Aligned(k, o)
    ensures Aligned(j, o)
  {
    SizeMultiple(j, k);
    MultipleOfMultiple(o, Pow2(k), Pow2(j));
  }

  lemma MultipleOfMultiple(x: nat, y: nat, d: nat)
    requires y > 0 && d > 0 && x % y == 0 && y % d == 0
    ensures x % d == 0
  {
    var a, b := x / y, y / d;
    assert x == a * y && y == b * d;
    assert a * (b * d) == d * (a * b);
    ModOfMultiple(d, a * b);
  }

  // Blocks that share a page are nested.
  lemma Nested(j: nat, o: nat, k: nat, h: nat, p: nat)
    requires j <= k && Aligned(j, o) && Aligned(k, h) && InBlock(j, o, p) && InBlock(k, h, p)
    ensures h <= o && o + Pow2(j) <= h + Pow2(k)
  {
    hide Pow2;
    AlignedBelow(j, k, h);
    SizeMultiple(j, k);
    NestedMultiples(o, h, Pow2(j), Pow2(k));
  }

  lemma NestedMultiples(o: nat, h: nat, d: nat, e: nat)
    requires d > 0 && o % d == 0 && h % d == 0 && e % d == 0 && h < o + d && o < h + e
    ensures h <= o && o + d <= h + e
  {
    MultiplesApart(h, o, d);
    SumAligned(h, e, d);
    AheadByOne(o, h + e, d);
  }

  lemma SumAligned(x: nat, y: nat, d: nat)
    requires d > 0 && x % d == 0 && y % d == 0
    ensures (x + y) % d == 0
  {
    var a, b := x / d, y / d;
    assert x == a * d && y == b * d;
    assert (a + b) * d == a * d + b * d;
    DivModUnique(x + y, d, a + b, 0);
  }

  lemma AheadByOne(x: nat, y: nat, d: nat)
    requires d > 0 && x % d == 0 && y % d == 0 && x < y
    ensures x + d <= y
  {
    var a, b := x / d, y / d;
    assert x == a * d && y == b * d;
    MulStrict(a, b, d);
    MulMono(a + 1, b, d);
    assert (a + 1) * d == a * d + d;
  }

  // ---------- free pages and their canonical blocks ----------

  ghost predicate Whole(F: set<nat>, k: nat, o: nat) { forall p :: InBlock(k, o, p) ==> p in F }

  // A block is canonical in F when all its pages are in F and no larger block's are.
  ghost predicate FreeBlock(F: set<nat>, k: nat, o: nat)
  {
    k <= TOP && Aligned(k, o) && Whole(F, k, o) && (k < TOP ==> !Whole(F, k + 1, Parent(k, o)))
  }

  lemma ParentContains(k: nat, o: nat)
    requires Aligned(k, o)
    ensures Parent(k, o) <= o && o + Pow2(k) <= Parent(k, o) + Pow2(k + 1)
    ensures forall p :: InBlock(k + 1, Parent(k, o), p) ==> InBlock(k, o, p) || InBlock(k, BuddyOf(k, o), p)
    ensures forall p :: InBlock(k, BuddyOf(k, o), p) ==> InBlock(k + 1, Parent(k, o), p) && !InBlock(k, o, p)
  {
    BuddyHalves(k, o);
    Pow2Step(k);
  }

  // The parent of a smaller block lies in any larger block that meets it.
  lemma ParentNested(j: nat, o: nat, k: nat, h: nat, p: nat)
    requires j < k && Aligned(j, o) && Aligned(k, h) && InBlock(j, o, p) && InBlock(k, h, p)
    ensures h <= Parent(j, o) && Parent(j, o) + Pow2(j + 1) <= h + Pow2(k)
  {
    ParentContains(j, o);
    BuddyHalves(j, o);
    Nested(j + 1, Parent(j, o), k, h, p);
  }

  // Two canonical blocks that share a page are the same block.
  lemma CanonicalDisjoint(F: set<nat>, j: nat, o: nat, k: nat, h: nat, p: nat)
    requires FreeBlock(F, j, o) && FreeBlock(F, k, h) && InBlock(j, o, p) && InBlock(k, h, p)
    ensures j == k && o == h
  {
    if j < k {
      ParentNested(j, o, k, h, p);
    } else if k < j {
      ParentNested(k, h, j, o, p);
    } else {
      Nested(j, o, k, h, p);
      Nested(k, h, j, o, p);
    }
  }

  // Taking one canonical block away leaves all others canonical and makes no new one.
  lemma TakeBlock(F: set<nat>, k: nat, h: nat, j: nat, o: nat)
    requires FreeBlock(F, k, h)
    ensures FreeBlock(F - Pages(k, h), j, o) <==> FreeBlock(F, j, o) && (j, o) != (k, h)
  {
    if FreeBlock(F, j, o) && (j, o) != (k, h) { TakeKeeps(F, k, h, j, o); }
    if FreeBlock(F - Pages(k, h), j, o) { TakeAddsNone(F, k, h, j, o); }
  }

  lemma TakeKeeps(F: set<nat>, k: nat, h: nat, j: nat, o: nat)
    requires FreeBlock(F, k, h) && FreeBlock(F, j, o) && (j, o) != (k, h)
    ensures FreeBlock(F - Pages(k, h), j, o)
  {
    forall p | InBlock(j, o, p) ensures p in F - Pages(k, h) {
      if InBlock(k, h, p) { CanonicalDisjoint(F, j, o, k, h, p); }
    }
  }

  lemma TakeAddsNone(F: set<nat>, k: nat, h: nat, j: nat, o: nat)
    requires FreeBlock(F, k, h) && FreeBlock(F - Pages(k, h), j, o)
    ensures FreeBlock(F, j, o) && (j, o) != (k, h)
  {
    hide Pow2, Parent, BuddyOf, Aligned;
    assert InBlock(j, o, o);
    if j < TOP {
      BuddyHalves(j, o);
      ParentContains(j, o);
      var p :| InBlock(j + 1, Parent(j, o), p) && p !in F - Pages(k, h);
      if p in F {
        assert InBlock(k, h, p);
        if j + 1 <= k {
          Nested(j + 1, Parent(j, o), k, h, p);
        } else {
          var q :| InBlock(k + 1, Parent(k, h), q) && q !in F;
          ParentNested(k, h, j + 1, Parent(j, o), p);
          assert InBlock(j + 1, Parent(j, o), q);
        }
      }
    }
  }

  // Giving back a block whose buddy is not all free adds that block and no other.
  lemma PutBlock(F: set<nat>, k: nat, t: nat, j: nat, o: nat)
    requires k <= TOP && Aligned(k, t) && F !! Pages(k, t)
    requires k < TOP ==> !Whole(F, k, BuddyOf(k, t))
    ensures FreeBlock(F + Pages(k, t), j, o) <==> FreeBlock(F, j, o) || (j, o) == (k, t)
  {
    var F' := F + Pages(k, t);
    if (j, o) == (k, t) {
      if k < TOP {
        BuddyHalves(k, t);
        ParentContains(k, t);
        var q := BuddyHole(F, k, t);
      }
    } else {
      if FreeBlock(F, j, o) { PutKeeps(F, k, t, j, o); }
      if FreeBlock(F', j, o) { PutAddsNoOther(F, k, t, j, o); }
    }
  }

  lemma PutKeeps(F: set<nat>, k: nat, t: nat, j: nat, o: nat)
    requires k <= TOP && Aligned(k, t) && F !! Pages(k, t)
    requires k < TOP ==> !Whole(F, k, BuddyOf(k, t))
    requires FreeBlock(F, j, o)
    ensures FreeBlock(F + Pages(k, t), j, o)
  {
    hide Pow2, Parent, BuddyOf, Aligned;
    var F' := F + Pages(k, t);
    if j < TOP {
      var p :| InBlock(j + 1, Parent(j, o), p) && p !in F;
      BuddyHalves(j, o);
      ParentContains(j, o);
      if InBlock(k, t, p) {
        if j + 1 <= k {
          assert InBlock(j, o, o);
          Nested(j + 1, Parent(j, o), k, t, p);
        } else {
          var q := BuddyHole(F, k, t);
          ParentNested(k, t, j + 1, Parent(j, o), p);
          assert InBlock(j + 1, Parent(j, o), q);
        }
      }
    }
  }

  // A page of the buddy that stays not free.
  lemma BuddyHole(F: set<nat>, k: nat, t: nat) returns (q: nat)
    requires k < TOP && Aligned(k, t) && !Whole(F, k, BuddyOf(k, t))
    ensures q !in F + Pages(k, t) && InBlock(k + 1, Parent(k, t), q)
  {
    ParentContains(k, t);
    q :| InBlock(k, BuddyOf(k, t), q) && q !in F;
  }

  lemma PutAddsNoOther(F: set<nat>, k: nat, t: nat, j: nat, o: nat)
    requires k <= TOP && Aligned(k, t) && F !! Pages(k, t)
    requires k < TOP ==> !Whole(F, k, BuddyOf(k, t))
    requires FreeBlock(F + Pages(k, t), j, o) && (j, o) != (k, t)
    ensures FreeBlock(F, j, o)
  {
    forall p | InBlock(j, o, p) ensures p in F {
      if InBlock(k, t, p) {
        if j < k {
          ParentNested(j, o, k, t, p);
        } else if k < j {
          var q := BuddyHole(F, k, t);
          ParentNested(k, t, j, o, p);
        } else {
          Nested(j, o, k, t, p);
          Nested(k, t, j, o, p);
        }
      }
    }
  }

  // ---------- the state of a page group ----------

  // free[k] is pg_freelist[k], head first; bits[k] is pg_map[k], where bits[0] is unused.
  datatype State = State(npages: nat, free: seq<seq<nat>>, bits: seq<seq<bool>>)

  ghost predicate ValidBlock(n: nat, k: nat, o: nat) { k <= TOP && Aligned(k, o) && o + Pow2(k) <= n }

  ghost predicate Shape(s: State)
  {
    && |s.free| == |s.bits| == NSIZES
    && s.npages % Pow2(TOP) == 0
    && forall k :: 1 <= k <= TOP ==> |s.bits[k]| == s.npages / Pow2(k)
  }

  // _pagegroup_calculate_index
  function Index(k: nat, o: nat): nat
  {
    DivNonNegative(o, Pow2(k));
    o / Pow2(k)
  }

  function BitAt(bits: seq<seq<bool>>, k: nat, o: nat): bool
  {
    k < |bits| && Index(k, o) < |bits[k]| && bits[k][Index(k, o)]
  }

  // bit_flip on the map that covers block o of order k and its buddy.
  function FlipAbove(bits: seq<seq<bool>>, k: nat, o: nat): (r: seq<seq<bool>>)
  {
    if k < TOP && k + 1 < |bits| && Index(k + 1, o) < |bits[k + 1]| then
      bits[k + 1 := bits[k + 1][Index(k + 1, o) := !bits[k + 1][Index(k + 1, o)]]]
    else
      bits
  }

  // The bit over a pair of buddies is set when exactly one of them is on the free list.
  ghost predicate BitOk(s: State, k: nat, o: nat)
    requires k < |s.free|
  {
    BitAt(s.bits, k + 1, o) == ((o in s.free[k]) != (BuddyOf(k, o) in s.free[k]))
  }

  ghost predicate Parity(s: State)
    requires |s.free| == NSIZES
  {
    forall k: nat, o: nat :: k < TOP && ValidBlock(s.npages, k, o) ==> BitOk(s, k, o)
  }

  // The invariant: the lists hold exactly the canonical blocks of the free pages, each
  // once, and every bit tells the truth.
  ghost predicate Inv(s: State, F: set<nat>)
  {
    && Shape(s)
    && (forall p :: p in F ==> p < s.npages)
    && (forall k, o :: 0 <= k <= TOP ==> (o in s.free[k] <==> FreeBlock(F, k, o)))
    && (forall k :: 0 <= k <= TOP ==> NoDup(s.free[k]))
    && Parity(s)
  }

  // Block o of order k taken off, and put on the head of, its free list.
  function Without(s: State, k: nat, o: nat): State
    requires k < |s.free|
  {
    State(s.npages, s.free[k := Lists.Without(s.free[k], o)], FlipAbove(s.bits, k, o))
  }

  function With(s: State, k: nat, o: nat): State
    requires k < |s.free|
  {
    State(s.npages, s.free[k := [o] + s.free[k]], FlipAbove(s.bits, k, o))
  }

  lemma IndexInRange(n: nat, k: nat, o: nat)
    requires n % Pow2(TOP) == 0 && k <= TOP && o < n
    ensures Index(k, o) < n / Pow2(k)
  {
    hide Pow2;
    SizeMultiple(k, TOP);
    MultipleOfMultiple(n, Pow2(TOP), Pow2(k));
    QuotientBelow(o, n, Pow2(k));
  }

  lemma QuotientBelow(x: nat, y: nat, d: nat)
    requires d > 0 && y % d == 0 && x < y
    ensures x / d < y / d
  {
    DivBounds(x, d);
    assert y == y / d * d;
    MulStrict(x / d, y / d, d);
  }

  // Two blocks under the same bit are the same block or buddies.
  lemma SameBit(k: nat, o: nat, x: nat)
    requires Aligned(k, o) && Aligned(k, x)
    ensures Index(k + 1, o) == Index(k + 1, x) <==> x == o || x == BuddyOf(k, o)
  {
    BuddyHalves(k, o);
    BuddyHalves(k, x);
  }

  // Moving one block on or off its list and flipping the bit above keeps every bit true.
  lemma ParityToggle(s: State, s': State, k: nat, o: nat)
    requires Shape(s) && Parity(s) && ValidBlock(s.npages, k, o)
    requires |s'.free| == NSIZES && s'.npages == s.npages && s'.bits == FlipAbove(s.bits, k, o)
    requires forall j :: 0 <= j <= TOP && j != k ==> s'.free[j] == s.free[j]
    requires forall x :: x != o ==> (x in s'.free[k] <==> x in s.free[k])
    requires (o in s'.free[k]) != (o in s.free[k])
    ensures Shape(s') && Parity(s')
  {
    forall j: nat, x: nat | j < TOP && ValidBlock(s.npages, j, x) ensures BitOk(s', j, x) {
      assert BitOk(s, j, x);
      if j == k {
        BitToggle(s, s', k, o, x);
      }
    }
  }

  lemma BitToggle(s: State, s': State, k: nat, o: nat, x: nat)
    requires Shape(s) && k < TOP && ValidBlock(s.npages, k, o) && ValidBlock(s.npages, k, x) && BitOk(s, k, x)
    requires |s'.free| == NSIZES && s'.bits == FlipAbove(s.bits, k, o)
    requires forall y :: y != o ==> (y in s'.free[k] <==> y in s.free[k])
    requires (o in s'.free[k]) != (o in s.free[k])
    ensures BitOk(s', k, x)
  {
    hide Pow2, BuddyOf, Aligned;
    IndexInRange(s.npages, k + 1, o);
    IndexInRange(s.npages, k + 1, x);
    SameBit(k, o, x);
    BuddyHalves(k, x);
    BuddyHalves(k, o);
  }

  lemma BlockPages(F: set<nat>, n: nat, k: nat, o: nat)
    requires k <= TOP && Aligned(k, o) && Whole(F, k, o) && forall p :: p in F ==> p < n
    ensures ValidBlock(n, k, o)
  {
    assert InBlock(k, o, o + Pow2(k) - 1);
  }

  // Unlinking a free block.
  lemma Take(s: State, F: set<nat>, k: nat, h: nat)
    requires Inv(s, F) && k <= TOP && h in s.free[k]
    ensures Inv(Without(s, k, h), F - Pages(k, h))
  {
    var s', F' := Without(s, k, h), F - Pages(k, h);
    WithoutIs(s.free[k], h);
    BlockPages(F, s.npages, k, h);
    ParityToggle(s, s', k, h);
    forall j, o | 0 <= j <= TOP ensures o in s'.free[j] <==> FreeBlock(F', j, o) {
      TakeBlock(F, k, h, j, o);
    }
    forall j | 0 <= j <= TOP ensures NoDup(s'.free[j]) {
      assert NoDup(s.free[j]);
    }
  }

  // Linking a block whose buddy is not on the free list.
  lemma Put(s: State, F: set<nat>, k: nat, t: nat)
    requires Inv(s, F) && ValidBlock(s.npages, k, t) && F !! Pages(k, t)
    requires k < TOP ==> BuddyOf(k, t) !in s.free[k]
    ensures Inv(With(s, k, t), F + Pages(k, t))
  {
    var s', F' := With(s, k, t), F + Pages(k, t);
    assert InBlock(k, t, t);
    assert t !in s.free[k] by { assert t in s.free[k] <==> FreeBlock(F, k, t); }
    if k < TOP { BuddyNotWhole(s, F, k, t); }
    ParityToggle(s, s', k, t);
    forall j, o | 0 <= j <= TOP ensures o in s'.free[j] <==> FreeBlock(F', j, o) {
      PutBlock(F, k, t, j, o);
    }
    forall j | 0 <= j <= TOP ensures NoDup(s'.free[j]) {
      assert NoDup(s.free[j]);
    }
  }

  // A buddy that is not on the list is not all free, since its parent is not.
  lemma BuddyNotWhole(s: State, F: set<nat>, k: nat, t: nat)
    requires Inv(s, F) && k < TOP && Aligned(k, t) && F !! Pages(k, t) && BuddyOf(k, t) !in s.free[k]
    ensures !Whole(F, k, BuddyOf(k, t))
  {
    BuddyHalves(k, t);
    ParentContains(k, t);
    assert InBlock(k, t, t) && InBlock(k + 1, Parent(k, t), t) && t !in F;
    assert BuddyOf(k, t) in s.free[k] <==> FreeBlock(F, k, BuddyOf(k, t));
  }

  // ---------- split and join ----------

  // Block h of order k heads its list, and without it the state is canonical: the
  // condition that holds between two turns of the split loop and of the join loop.
  ghost predicate Pending(s: State, F: set<nat>, k: nat, h: nat)
  {
    && Shape(s) && k <= TOP && s.free[k] != [] && s.free[k][0] == h
    && ValidBlock(s.npages, k, h) && Whole(F, k, h)
    && Inv(Without(s, k, h), F - Pages(k, h))
  }

  lemma HeadPending(s: State, F: set<nat>, k: nat)
    requires Inv(s, F) && k <= TOP && s.free[k] != []
    ensures Pending(s, F, k, s.free[k][0])
  {
    var h := s.free[k][0];
    assert h in s.free[k];
    BlockPages(F, s.npages, k, h);
    Take(s, F, k, h);
  }

  // Flipping the bit over a pair twice, by either buddy, restores the map.
  lemma FlipTwice(s: State, k: nat, o: nat)
    requires Shape(s) && ValidBlock(s.npages, k, o) && k < TOP
    ensures FlipAbove(FlipAbove(s.bits, k, o), k, BuddyOf(k, o)) == s.bits
    ensures FlipAbove(FlipAbove(s.bits, k, o), k, o) == s.bits
    ensures FlipAbove(s.bits, k, o) == FlipAbove(s.bits, k, BuddyOf(k, o))
  {
    hide Pow2, BuddyOf;
    BuddyHalves(k, o);
    IndexInRange(s.npages, k + 1, o);
    var i := Index(k + 1, o);
    var b := s.bits[k + 1];
    assert b[i := !b[i]][i := b[i]] == b;
    assert s.bits[k + 1 := b[i := !b[i]]][k + 1 := b] == s.bits;
  }

  // A pending block put back is the state itself.
  lemma PendingRestored(s: State, F: set<nat>, k: nat, h: nat)
    requires Pending(s, F, k, h)
    ensures With(Without(s, k, h), k, h) == s
  {
    var l := s.free[k];
    assert [h] + l[1..] == l;
    assert s.free[k := l[1..]][k := l] == s.free;
    if k < TOP { FlipTwice(s, k, h); }
  }

  // What the bit over a pending block says of its buddy.
  lemma PendingBit(s: State, F: set<nat>, k: nat, h: nat)
    requires Pending(s, F, k, h) && k < TOP
    ensures BitAt(s.bits, k + 1, h) <==> BuddyOf(k, h) !in s.free[k]
    ensures Index(k + 1, h) < |s.bits[k + 1]|
  {
    hide Pow2, BuddyOf, Aligned, FreeBlock, Index, FlipAbove, BitAt;
    var w := Without(s, k, h);
    BuddyHalves(k, h);
    IndexInRange(s.npages, k + 1, h);
    NotWhole(F, k, h);
    assert h in w.free[k] <==> FreeBlock(F - Pages(k, h), k, h);
    assert BitOk(w, k, h);
    assert s.free[k] == [h] + w.free[k];
    BitFlips(s.bits, k, h);
  }

  lemma NotWhole(F: set<nat>, k: nat, h: nat)
    ensures !FreeBlock(F - Pages(k, h), k, h)
  {
    hide Aligned, Parent;
    assert InBlock(k, h, h);
  }

  lemma BitFlips(bits: seq<seq<bool>>, k: nat, h: nat)
    requires k < TOP && k + 1 < |bits| && Index(k + 1, h) < |bits[k + 1]|
    ensures BitAt(FlipAbove(bits, k, h), k + 1, h) == !BitAt(bits, k + 1, h)
  {
    hide Index;
  }

  // __page_split: the head block becomes two buddies on the next lower list, upper half first.
  function SplitState(s: State, k: nat): State
    requires |s.free| == NSIZES && 0 < k <= TOP && s.free[k] != []
  {
    var h := s.free[k][0];
    State(s.npages, s.free[k := s.free[k][1..]][k - 1 := [h + Pow2(k - 1), h] + s.free[k - 1]], FlipAbove(s.bits, k, h))
  }

  // The bit over the two halves is clear before the split, as the source asserts, and
  // the upper half is the next pending block.
  lemma SplitPending(s: State, F: set<nat>, k: nat, h: nat)
    requires Pending(s, F, k, h) && k > 0
    ensures Shape(s) && k <= TOP && s.free[k] != []
    ensures !BitAt(FlipAbove(s.bits, k, h), k, h)
    ensures Pending(SplitState(s, k), F, k - 1, h + Pow2(k - 1))
  {
    hide Pow2, Inv, BuddyOf, Aligned, BitAt, Whole, With, Without, SplitState, FlipAbove;
    SplitHead(s, k, h);
    var w, F', hi := Without(s, k, h), F - Pages(k, h), h + Pow2(k - 1);
    HalvesOfHead(k, h);
    SplitPages(F, k, h);
    HalvesNotListed(w, F', k, h);
    Put(w, F', k - 1, h);
    SplitRejoined(s, k, h);
  }

  lemma SplitHead(s: State, k: nat, h: nat)
    requires Shape(s) && 0 < k <= TOP && s.free[k] != [] && s.free[k][0] == h && ValidBlock(s.npages, k, h)
    ensures var t := SplitState(s, k);
            Shape(t) && t.npages == s.npages && t.free[k - 1] != [] && t.free[k - 1][0] == h + Pow2(k - 1)
    ensures ValidBlock(s.npages, k - 1, h) && ValidBlock(s.npages, k - 1, h + Pow2(k - 1))
    ensures var w := Without(s, k, h); w.npages == s.npages && w.bits == FlipAbove(s.bits, k, h)
  {
    HalvesOfHead(k, h);
  }

  lemma SplitPages(F: set<nat>, k: nat, h: nat)
    requires 0 < k && Aligned(k, h) && Whole(F, k, h)
    ensures var F', hi := F - Pages(k, h), h + Pow2(k - 1);
            && F' !! Pages(k - 1, h) && F' !! Pages(k - 1, hi)
            && F' + Pages(k - 1, h) == F - Pages(k - 1, hi) && Whole(F, k - 1, hi)
  {
    hide Pow2, Aligned, BuddyOf;
    var hi := h + Pow2(k - 1);
    HalvesOfHead(k, h);
    assert forall p :: InBlock(k, h, p) <==> InBlock(k - 1, h, p) || InBlock(k - 1, hi, p);
    forall p | InBlock(k - 1, h, p) ensures p in F && !InBlock(k - 1, hi, p) {
      assert InBlock(k, h, p);
    }
  }

  // Neither half of a block that is not free is listed, so the bit over them is clear.
  lemma HalvesNotListed(w: State, F': set<nat>, k: nat, h: nat)
    requires Inv(w, F') && 0 < k <= TOP && ValidBlock(w.npages, k, h)
    requires F' !! Pages(k - 1, h) && F' !! Pages(k - 1, h + Pow2(k - 1))
    ensures ValidBlock(w.npages, k - 1, h) && BuddyOf(k - 1, h) == h + Pow2(k - 1)
            && BuddyOf(k - 1, h) !in w.free[k - 1]
    ensures !BitAt(w.bits, k, h)
  {
    var hi := h + Pow2(k - 1);
    HalvesOfHead(k, h);
    assert InBlock(k - 1, h, h) && InBlock(k - 1, hi, hi);
    assert h in w.free[k - 1] <==> FreeBlock(F', k - 1, h);
    assert hi in w.free[k - 1] <==> FreeBlock(F', k - 1, hi);
    assert BitOk(w, k - 1, h);
  }

  lemma HalvesOfHead(k: nat, h: nat)
    requires 0 < k && Aligned(k, h)
    ensures Aligned(k - 1, h) && BuddyOf(k - 1, h) == h + Pow2(k - 1) && Aligned(k - 1, h + Pow2(k - 1))
    ensures Pow2(k) == 2 * Pow2(k - 1)
  {
    AlignedBelow(k - 1, k, h);
    BuddyHalves(k - 1, h);
    assert Parent(k - 1, h) == h;
  }

  // Taking the upper half off a split state is putting the lower half on the rest.
  lemma SplitRejoined(s: State, k: nat, h: nat)
    requires Shape(s) && 0 < k <= TOP && s.free[k] != [] && s.free[k][0] == h && ValidBlock(s.npages, k, h)
    ensures Without(SplitState(s, k), k - 1, h + Pow2(k - 1)) == With(Without(s, k, h), k - 1, h)
    ensures Shape(SplitState(s, k))
  {
    var hi, t := h + Pow2(k - 1), SplitState(s, k);
    HalvesOfHead(k, h);
    assert t.free[k - 1] == [hi] + ([h] + s.free[k - 1]);
    assert t.free[k - 1][1..] == [h] + s.free[k - 1];
    FlipTwice(t, k - 1, h);
  }

  // __page_join, one turn: a block and its buddy become their parent on the next list.
  function JoinState(s: State, k: nat, h: nat): State
    requires |s.free| == NSIZES && k < TOP
  {
    With(State(s.npages, s.free[k := Lists.Without(Lists.Without(s.free[k], h), BuddyOf(k, h))], s.bits), k + 1,
         Parent(k, h))
  }

  // A clear bit over the pending block means that its buddy is on the same list, so that
  // unlinking it is sound; then the parent is the next pending block.
  lemma JoinPending(s: State, F: set<nat>, k: nat, h: nat)
    requires Pending(s, F, k, h) && k < TOP && !BitAt(s.bits, k + 1, h)
    ensures BuddyOf(k, h) in s.free[k]
    ensures Pending(JoinState(s, k, h), F, k + 1, Parent(k, h))
  {
    hide Pow2, Inv, BuddyOf, Aligned, BitAt, Whole, FlipAbove, Parent;
    var b, w, u := BuddyOf(k, h), Without(s, k, h), Parent(k, h);
    PendingBit(s, F, k, h);
    BuddyHalves(k, h);
    assert s.free[k] == [h] + w.free[k];
    BuddyIsFree(w, F - Pages(k, h), k, h);
    Take(w, F - Pages(k, h), k, b);
    FlipTwice(s, k, h);
    var w' := Without(w, k, b);
    assert w'.free == s.free[k := Lists.Without(Lists.Without(s.free[k], h), b)] && w'.bits == s.bits;
    JoinPages(F, s.npages, k, h);
    WithWithout(w', k + 1, u);
    assert JoinState(s, k, h) == With(w', k + 1, u);
  }

  lemma BuddyIsFree(w: State, F: set<nat>, k: nat, h: nat)
    requires Inv(w, F) && k < TOP && BuddyOf(k, h) in w.free[k]
    ensures ValidBlock(w.npages, k, BuddyOf(k, h)) && Whole(F, k, BuddyOf(k, h))
  {
    assert BuddyOf(k, h) in w.free[k] <==> FreeBlock(F, k, BuddyOf(k, h));
    BlockPages(F, w.npages, k, BuddyOf(k, h));
  }

  lemma JoinPages(F: set<nat>, n: nat, k: nat, h: nat)
    requires k < TOP && ValidBlock(n, k, h) && ValidBlock(n, k, BuddyOf(k, h)) && Whole(F, k, h)
    requires Whole(F - Pages(k, h), k, BuddyOf(k, h))
    ensures F - Pages(k, h) - Pages(k, BuddyOf(k, h)) == F - Pages(k + 1, Parent(k, h))
    ensures Whole(F, k + 1, Parent(k, h)) && ValidBlock(n, k + 1, Parent(k, h))
  {
    BuddyHalves(k, h);
    ParentContains(k, h);
    Pow2Step(k);
    assert forall p :: InBlock(k + 1, Parent(k, h), p) <==> InBlock(k, h, p) || InBlock(k, BuddyOf(k, h), p);
  }

  lemma WithWithout(s: State, k: nat, o: nat)
    requires Shape(s) && ValidBlock(s.npages, k, o)
    ensures Shape(With(s, k, o)) && Without(With(s, k, o), k, o) == s
  {
    var t := With(s, k, o);
    assert ([o] + s.free[k])[1..] == s.free[k];
    assert t.free[k := s.free[k]] == s.free;
    if k < TOP { FlipTwice(s, k, o); }
  }

  // The join loop stops at the largest order or at a set bit; then the state is canonical.
  lemma JoinDone(s: State, F: set<nat>, k: nat, h: nat)
    requires Pending(s, F, k, h) && (k < TOP ==> BitAt(s.bits, k + 1, h))
    ensures Inv(s, F)
  {
    if k < TOP {
      PendingBit(s, F, k, h);
      assert s.free[k] == [h] + Without(s, k, h).free[k];
    }
    Put(Without(s, k, h), F - Pages(k, h), k, h);
    PendingRestored(s, F, k, h);
    assert F - Pages(k, h) + Pages(k, h) == F;
  }

  // ---------- consequences ----------

  // The free blocks and the bits are determined by the set of free pages alone.
  lemma Determined(s: State, t: State, F: set<nat>)
    requires Inv(s, F) && Inv(t, F) && s.npages == t.npages
    ensures forall k, o :: 0 <= k <= TOP ==> (o in s.free[k] <==> o in t.free[k])
    ensures forall k: nat, o: nat :: k < TOP && ValidBlock(s.npages, k, o) ==>
              BitAt(s.bits, k + 1, o) == BitAt(t.bits, k + 1, o)
  {
    forall k, o | 0 <= k <= TOP ensures o in s.free[k] <==> o in t.free[k] {
      assert o in s.free[k] <==> FreeBlock(F, k, o);
    }
    forall k: nat, o: nat | k < TOP && ValidBlock(s.npages, k, o)
      ensures BitAt(s.bits, k + 1, o) == BitAt(t.bits, k + 1, o)
    {
      assert BitOk(s, k, o) && BitOk(t, k, o);
    }
  }

  // Free blocks never overlap, and no two buddies are both free.
  lemma FreeBlocksApart(s: State, F: set<nat>, j: nat, o: nat, k: nat, h: nat)
    requires Inv(s, F) && j <= TOP && k <= TOP && o in s.free[j] && h in s.free[k]
    ensures ValidBlock(s.npages, j, o) && Whole(F, j, o)
    ensures (j, o) != (k, h) ==> Pages(j, o) !! Pages(k, h)
    ensures j < TOP ==> BuddyOf(j, o) !in s.free[j]
  {
    BlockPages(F, s.npages, j, o);
    if p :| p in Pages(j, o) && p in Pages(k, h) {
      CanonicalDisjoint(F, j, o, k, h, p);
    }
    if j < TOP && BuddyOf(j, o) in s.free[j] {
      assert FreeBlock(F, j, o) && FreeBlock(F, j, BuddyOf(j, o));
      ParentContains(j, o);
    }
  }

  // If some aligned run of 2^k pages is free, some list of order k or more is not empty.
  lemma {:induction false} RunIsListed(s: State, F: set<nat>, k: nat, o: nat) returns (j: nat)
    requires Inv(s, F) && k <= TOP && Aligned(k, o) && Whole(F, k, o)
    ensures k <= j <= TOP && s.free[j] != []
    decreases TOP - k
  {
    if FreeBlock(F, k, o) {
      j := k;
      assert o in s.free[k];
    } else {
      BuddyHalves(k, o);
      j := RunIsListed(s, F, k + 1, Parent(k, o));
    }
  }

  ghost predicate InGroup(n: nat, p: nat) { p < n }

  ghost function AllPages(n: nat): set<nat> { set p: nat | p < n && InGroup(n, p) }

  // With every page free, only the largest blocks are listed and every bit is clear.
  lemma AllFree(s: State)
    requires Inv(s, AllPages(s.npages))
    ensures forall k :: 0 <= k < TOP ==> s.free[k] == []
    ensures forall o :: o in s.free[TOP] <==> ValidBlock(s.npages, TOP, o)
    ensures forall k: nat, o: nat :: k < TOP && ValidBlock(s.npages, k, o) ==> !BitAt(s.bits, k + 1, o)
  {
    var F := AllPages(s.npages);
    forall k | 0 <= k < TOP ensures s.free[k] == [] {
      if s.free[k] != [] {
        var o := s.free[k][0];
        assert o in s.free[k];
        BlockPages(F, s.npages, k, o);
        ParentInGroup(s.npages, k, o);
      }
    }
    forall o ensures o in s.free[TOP] <==> ValidBlock(s.npages, TOP, o) {
      if o in s.free[TOP] { BlockPages(F, s.npages, TOP, o); }
    }
    forall k: nat, o: nat | k < TOP && ValidBlock(s.npages, k, o) ensures !BitAt(s.bits, k + 1, o) {
      assert BitOk(s, k, o);
    }
  }

  // In a group of whole largest blocks, parents of blocks lie in the group.
  lemma ParentInGroup(n: nat, k: nat, o: nat)
    requires k < TOP && ValidBlock(n, k, o) && n % Pow2(TOP) == 0
    ensures ValidBlock(n, k + 1, Parent(k, o))
  {
    BuddyHalves(k, o);
    ParentContains(k, o);
    SizeMultiple(k + 1, TOP);
    MultipleOfMultiple(n, Pow2(TOP), Pow2(k + 1));
    AheadByOne(Parent(k, o), n, Pow2(k + 1));
  }

  // ---------- creation ----------

  // _pagegroup_create on n pages: what does not fill a largest block is cut, smallest
  // order first, from the end; the rest goes to the largest list. All bits start clear.
  function InitList(n: nat, k: nat): seq<nat>
  {
    if k < TOP then (if Index(k, n) % 2 == 1 then [Parent(k, n)] else []) else TopList(Index(TOP, n))
  }

  function TopList(c: nat): seq<nat>
  {
    if c == 0 then [] else [(c - 1) * Pow2(TOP)] + TopList(c - 1)
  }

  function InitState(n: nat): State
  {
    State(n, seq(NSIZES, k requires 0 <= k < NSIZES => InitList(n, k)),
          seq(NSIZES, k requires 0 <= k < NSIZES => seq(Index(k, n), _ => false)))
  }

  lemma {:induction false} TopListIs(c: nat)
    ensures NoDup(TopList(c))
    ensures forall o: nat :: o in TopList(c) <==> Aligned(TOP, o) && o < c * Pow2(TOP)
  {
    hide Pow2;
    if c > 0 {
      var x, d, l := (c - 1) * Pow2(TOP), Pow2(TOP), TopList(c - 1);
      TopListIs(c - 1);
      assert c * d == x + d;
      ModOfMultiple(d, c - 1);
      assert d * (c - 1) == x && Aligned(TOP, x) && x !in l;
      assert TopList(c) == [x] + l;
      forall o: nat ensures o in TopList(c) <==> Aligned(TOP, o) && o < c * d {
        if x <= o && Aligned(TOP, o) && o < c * d { MultiplesApart(o, x, d); }
      }
    } else {
      assert c * Pow2(TOP) == 0;
    }
  }

  // When the pages make up whole largest blocks, the lists start out canonical.
  lemma InitInv(n: nat)
    requires n % Pow2(TOP) == 0
    ensures Inv(InitState(n), AllPages(n))
  {
    hide Pow2;
    var s, F := InitState(n), AllPages(n);
    TopListIs(Index(TOP, n));
    assert Index(TOP, n) * Pow2(TOP) == n;
    forall k | 0 <= k < TOP ensures s.free[k] == [] {
      EvenBelow(n, k);
    }
    forall k: nat, o: nat | 0 <= k <= TOP ensures o in s.free[k] <==> FreeBlock(F, k, o) {
      if k < TOP {
        if Aligned(k, o) && Whole(F, k, o) {
          BlockPages(F, n, k, o);
          ParentInGroup(n, k, o);
        }
      } else {
        if Aligned(TOP, o) && o < n { AheadByOne(o, n, Pow2(TOP)); }
        if FreeBlock(F, k, o) { BlockPages(F, n, k, o); }
      }
    }
    forall k: nat, o: nat | k < TOP && ValidBlock(n, k, o) ensures BitOk(s, k, o) {
    }
  }

  lemma EvenBelow(n: nat, k: nat)
    requires n % Pow2(TOP) == 0 && k < TOP
    ensures Index(k, n) % 2 == 0
  {
    SizeMultiple(k + 1, TOP);
    MultipleOfMultiple(n, Pow2(TOP), Pow2(k + 1));
    Pow2Step(k);
    var c := n / Pow2(k + 1);
    assert n == c * (2 * Pow2(k)) == (2 * c) * Pow2(k);
    DivModUnique(n, Pow2(k), 2 * c, 0);
  }

  // Otherwise some block is listed whose bit is clear though its buddy is not listed and not
  // even in the group. Taking that block and putting it back leads to the same state, where
  // the clear bit makes the join unlink a page that is on no list.
  lemma RemainderBreaksParity(n: nat) returns (k: nat, o: nat)
    requires n % Pow2(TOP) != 0
    ensures k < TOP && Aligned(k, o) && InitState(n).free[k] == [o]
    ensures BuddyOf(k, o) !in InitState(n).free[k] && !BitAt(InitState(n).bits, k + 1, o)
    ensures BuddyOf(k, o) + Pow2(k) > n
    ensures With(Without(InitState(n), k, o), k, o) == InitState(n)
  {
    hide Pow2, Aligned;
    k := OddBelow(n, TOP);
    o := Parent(k, n);
    AlignedParent(n, k);
    BuddyHalves(k, o);
    BuddyPastEnd(n, k);
    var s := InitState(n);
    TakenAndBack(s, k, o);
  }

  lemma BuddyPastEnd(n: nat, k: nat)
    ensures var o := Parent(k, n); Aligned(k, o) && o <= BuddyOf(k, o) && BuddyOf(k, o) + Pow2(k) > n
  {
    hide Pow2;
    var o := Parent(k, n);
    AlignedParent(n, k);
    ParentAligned(n, k);
    BuddyHalves(k, o);
    Pow2Step(k);
  }

  lemma ParentAligned(n: nat, k: nat)
    ensures Parent(k, Parent(k, n)) == Parent(k, n) && n < Parent(k, n) + Pow2(k + 1)
  {
    var d := Pow2(k + 1);
    ModOfMultiple(d, n / d);
    assert Parent(k, n) == n / d * d == d * (n / d);
  }

  lemma TakenAndBack(s: State, k: nat, o: nat)
    requires k < |s.free| && s.free[k] == [o]
    ensures With(Without(s, k, o), k, o) == s
  {
    assert [o] + Lists.Without([o], o) == [o] by { assert [o][1..] == []; }
    assert With(Without(s, k, o), k, o).free[k] == s.free[k];
    assert With(Without(s, k, o), k, o).free == s.free;
    FlippedBack(s.bits, k, o);
  }

  lemma FlippedBack(bits: seq<seq<bool>>, k: nat, o: nat)
    ensures FlipAbove(FlipAbove(bits, k, o), k, o) == bits
  {
    var b := FlipAbove(bits, k, o);
    if k < TOP && k + 1 < |bits| && Index(k + 1, o) < |bits[k + 1]| {
      assert FlipAbove(b, k, o)[k + 1] == bits[k + 1];
    }
  }

  // So the bits over the listed blocks are right from the start exactly when the pages make
  // up whole largest blocks.
  lemma InitBitsRight(n: nat)
    ensures (forall k, o :: 0 <= k < TOP && o in InitState(n).free[k] ==> BitOk(InitState(n), k, o)) <==>
              n % Pow2(TOP) == 0
  {
    hide Pow2, BuddyOf, Aligned;
    var s := InitState(n);
    if n % Pow2(TOP) == 0 {
      forall k | 0 <= k < TOP ensures s.free[k] == [] {
        EvenBelow(n, k);
      }
    } else {
      var k, o := RemainderBreaksParity(n);
      assert o in s.free[k] && !BitOk(s, k, o);
    }
  }

  lemma AlignedParent(n: nat, k: nat)
    ensures Aligned(k, Parent(k, n))
  {
    var d := Pow2(k + 1);
    assert Parent(k, n) == n / d * d;
    ModOfMultiple(d, n / d);
    AlignedBelow(k, k + 1, Parent(k, n));
  }

  // A number that is not a multiple of 2^t has an odd quotient by some smaller power.
  lemma {:induction false} OddBelow(n: nat, t: nat) returns (k: nat)
    requires n % Pow2(t) != 0
    ensures k < t && Index(k, n) % 2 == 1
  {
    if n % Pow2(t - 1) != 0 {
      k := OddBelow(n, t - 1);
    } else {
      k := t - 1;
      var d, i := Pow2(t - 1), n / Pow2(t - 1);
      if i % 2 == 0 {
        assert n == i / 2 * (2 * d) by { assert n == i * d; assert i == 2 * (i / 2); }
        DivModUnique(n, 2 * d, i / 2, 0);
      }
    }
  }
}
