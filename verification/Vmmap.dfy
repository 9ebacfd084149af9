/**
 The list of areas of an address space (kernel/vm/vmmap.c).

 Lists are walked with list_iterate_begin and list_iterate_end of kernel/include/util/list.h,
 whose body is the body of a `do ... while (0)` inside the loop. A `break` in such a body
 therefore ends the current turn, not the walk. So vmmap_insert sees every area and puts
 the new one before the LAST one, vmmap_is_range_empty answers for the last area only, and
 vmmap_lookup returns the last area that covers the page. The model does the same.
 */
module Vmmap {
  import opened Common

  // Pages [start, end) mapped from page off of obj on.
  datatype Area = Area(start: nat, end: nat, off: int, prot: nat, flags: nat, obj: Option<nat>)

  ghost predicate Covers(a: Area, p: int) { a.start <= p < a.end }

  ghost predicate Apart(a: Area, b: Area) { a.end <= b.start || b.end <= a.start }

  ghost predicate NonEmpty(l: seq<Area>) { forall i :: 0 <= i < |l| ==> l[i].start < l[i].end }

  ghost predicate Disjoint(l: seq<Area>) { forall i, j :: 0 <= i < j < |l| ==> Apart(l[i], l[j]) }

  ghost predicate Sorted(l: seq<Area>) { forall i, j :: 0 <= i < j < |l| ==> l[i].start <= l[j].start }

  // What a page is mapped to: the area's attributes and the page of its object.
  datatype Mapping = Mapping(prot: nat, flags: nat, obj: Option<nat>)

  ghost function Attributes(a: Area): Mapping { Mapping(a.prot, a.flags, a.obj) }

  ghost function ObjectPage(a: Area, p: int): int { p - a.start + a.off }

  // The area that covers a page; in a disjoint list there is at most one.
  ghost predicate Maps(l: seq<Area>, p: int, a: Area) { a in l && Covers(a, p) }

  lemma MapsUnique(l: seq<Area>, p: int, a: Area, b: Area)
    requires Disjoint(l) && Maps(l, p, a) && Maps(l, p, b)
    ensures a == b
  {
    var i :| 0 <= i < |l| && l[i] == a;
    var j :| 0 <= j < |l| && l[j] == b;
  }

  // Page p is mapped alike by two lists: by neither, or to the same attributes by both.
  ghost predicate SameMapping(l: seq<Area>, r: seq<Area>, p: int)
  {
    && (forall a :: Maps(l, p, a) ==> exists b :: Maps(r, p, b) && Attributes(a) == Attributes(b))
    && (forall b :: Maps(r, p, b) ==> exists a :: Maps(l, p, a) && Attributes(a) == Attributes(b))
  }

  // Reordering a list keeps it disjoint.
  lemma ReorderedDisjoint(l: seq<Area>, k: seq<Area>)
    requires multiset(l) == multiset(k) && NonEmpty(k) && Disjoint(k)
    ensures NonEmpty(l) && Disjoint(l) && forall a :: a in l <==> a in k
  {
    assert forall a :: a in l <==> a in multiset(l);
    assert forall a :: a in k <==> a in multiset(k);
    forall i | 0 <= i < |l| ensures l[i].start < l[i].end {
      assert l[i] in k;
    }
    forall i: nat, j: nat | i < j < |l| ensures Apart(l[i], l[j]) {
      ReorderedPair(l, k, i, j);
    }
  }

  lemma ReorderedPair(l: seq<Area>, k: seq<Area>, i: nat, j: nat)
    requires multiset(l) == multiset(k) && NonEmpty(k) && Disjoint(k) && i < j < |l|
    ensures Apart(l[i], l[j])
  {
    hide Apart;
    var a, b := l[i], l[j];
    assert a in multiset(l) && b in multiset(l);
    assert a in k && b in k;
    OnceIfDisjoint(k, a);
    TwiceIn(l, i, j);
    var x :| 0 <= x < |k| && k[x] == a;
    var y :| 0 <= y < |k| && k[y] == b;
    ApartEitherWay(a, b);
  }

  lemma ApartEitherWay(a: Area, b: Area)
    ensures Apart(a, b) == Apart(b, a)
  {
  }

  lemma TwiceIn(l: seq<Area>, i: nat, j: nat)
    requires i < j < |l|
    ensures l[i] == l[j] ==> multiset(l)[l[i]] >= 2
  {
    assert l == l[..i] + [l[i]] + l[i + 1..j] + [l[j]] + l[j + 1..];
  }

  lemma {:induction false} OnceIfDisjoint(k: seq<Area>, a: Area)
    requires NonEmpty(k) && Disjoint(k)
    ensures multiset(k)[a] <= 1
  {
    if k != [] {
      var m := k[..|k| - 1];
      assert k == m + [k[|k| - 1]];
      OnceIfDisjoint(m, a);
      if k[|k| - 1] == a {
        forall i | 0 <= i < |m| ensures m[i] != a {
          assert Apart(k[i], k[|k| - 1]);
        }
        assert multiset(m)[a] == 0;
      }
    }
  }

  // ---------- insertion ----------

  // vmmap_insert: before the last area if any area starts above the new one, else at the end.
  function InsertAt(l: seq<Area>, a: Area): nat
  {
    if (exists i :: 0 <= i < |l| && l[i].start > a.start) then |l| - 1 else |l|
  }

  function Inserted(l: seq<Area>, a: Area): seq<Area> { l[..InsertAt(l, a)] + [a] + l[InsertAt(l, a)..] }

  lemma InsertPlace(l: seq<Area>, a: Area)
    ensures InsertAt(l, a) == |l| || InsertAt(l, a) == |l| - 1
  {
  }

  lemma InsertedPermutes(l: seq<Area>, a: Area)
    ensures multiset(Inserted(l, a)) == multiset(l) + multiset{a}
  {
    var k := InsertAt(l, a);
    assert l == l[..k] + l[k..];
  }

  // A sorted list stays sorted exactly when at most its last area starts above the new one.
  lemma InsertSortedIff(l: seq<Area>, a: Area)
    requires Sorted(l)
    ensures Sorted(Inserted(l, a)) <==> |l| < 2 || l[|l| - 2].start <= a.start
  {
    var r, n := Inserted(l, a), |l|;
    if n >= 2 && l[n - 2].start > a.start {
      assert r[n - 2] == l[n - 2] && r[n - 1] == a;
    } else {
      forall i, j | 0 <= i < j < |r| ensures r[i].start <= r[j].start {
        if n >= 2 { assert forall x :: 0 <= x < n - 1 ==> l[x].start <= l[n - 2].start; }
      }
    }
  }

  // Three areas and a new one below them all.
  lemma InsertUnsorts()
    ensures var l := [Area(10, 11, 0, 0, 0, None), Area(20, 21, 0, 0, 0, None), Area(30, 31, 0, 0, 0, None)];
            Sorted(l) && Disjoint(l) && !Sorted(Inserted(l, Area(5, 6, 0, 0, 0, None)))
  {
    var l := [Area(10, 11, 0, 0, 0, None), Area(20, 21, 0, 0, 0, None), Area(30, 31, 0, 0, 0, None)];
    InsertSortedIff(l, Area(5, 6, 0, 0, 0, None));
  }

  // ---------- removal ----------

  // What vmmap_remove leaves of one area, in the order of its four cases.
  function Cut(a: Area, lo: nat, hi: nat): seq<Area>
    requires lo <= hi
  {
    if Split(a, lo, hi) then [a.(end := lo), Upper(a, lo, hi)]
    else if a.start < lo && a.end <= hi && a.end >= lo then [a.(end := lo)]
    else if a.start >= lo && a.end > hi && a.start <= hi then [a.(off := a.off + hi - a.start, start := hi)]
    else if a.start >= lo && a.end <= hi then []
    else [a]
  }

  // The range lies strictly inside the area.
  predicate Split(a: Area, lo: nat, hi: nat) { a.start < lo && a.end > hi }

  function Upper(a: Area, lo: nat, hi: nat): Area { a.(start := hi, off := a.off + hi - lo) }

  function CutAll(l: seq<Area>, lo: nat, hi: nat): seq<Area>
    requires lo <= hi
  {
    if l == [] then [] else Cut(l[0], lo, hi) + CutAll(l[1..], lo, hi)
  }

  lemma CutPieces(a: Area, lo: nat, hi: nat)
    requires lo <= hi && a.start < a.end
    ensures NonEmpty(Cut(a, lo, hi)) && Disjoint(Cut(a, lo, hi))
    ensures forall b :: b in Cut(a, lo, hi) ==> a.start <= b.start && b.end <= a.end && Attributes(b) == Attributes(a)
    ensures forall b, p :: b in Cut(a, lo, hi) && Covers(b, p) ==> Covers(a, p) && !(lo <= p < hi)
    ensures forall p :: Covers(a, p) && !(lo <= p < hi) ==> exists b :: b in Cut(a, lo, hi) && Covers(b, p)
    ensures forall b, p :: b in Cut(a, lo, hi) && Covers(b, p) ==>
              ObjectPage(b, p) == ObjectPage(a, p) - (if Split(a, lo, hi) && p >= hi then lo - a.start else 0)
  {
    var c := Cut(a, lo, hi);
    forall p | Covers(a, p) && !(lo <= p < hi) ensures exists b :: b in c && Covers(b, p) {
      if p < lo { assert c[0] in c && Covers(c[0], p); } else { assert c[|c| - 1] in c && Covers(c[|c| - 1], p); }
    }
  }

  lemma {:induction false} CutAllIs(l: seq<Area>, lo: nat, hi: nat)
    requires lo <= hi
    ensures forall b :: b in CutAll(l, lo, hi) <==> exists i :: 0 <= i < |l| && b in Cut(l[i], lo, hi)
  {
    if l != [] {
      CutAllIs(l[1..], lo, hi);
      forall b ensures b in CutAll(l, lo, hi) <==> exists i :: 0 <= i < |l| && b in Cut(l[i], lo, hi) {
        if b in CutAll(l[1..], lo, hi) {
          var i :| 0 <= i < |l[1..]| && b in Cut(l[1..][i], lo, hi);
          assert l[i + 1] == l[1..][i];
        }
        if i :| 0 <= i < |l| && b in Cut(l[i], lo, hi) {
          if i > 0 { assert l[i] == l[1..][i - 1]; }
        }
      }
    }
  }

  lemma {:induction false} CutAllDisjoint(l: seq<Area>, lo: nat, hi: nat)
    requires lo <= hi && NonEmpty(l) && Disjoint(l)
    ensures NonEmpty(CutAll(l, lo, hi)) && Disjoint(CutAll(l, lo, hi))
  {
    if l != [] {
      var c, r := Cut(l[0], lo, hi), CutAll(l[1..], lo, hi);
      CutPieces(l[0], lo, hi);
      CutAllDisjoint(l[1..], lo, hi);
      CutAllIs(l[1..], lo, hi);
      forall i, j | 0 <= i < |c| && 0 <= j < |r| ensures Apart(c[i], r[j]) {
        assert r[j] in r;
        var k :| 0 <= k < |l[1..]| && r[j] in Cut(l[1..][k], lo, hi);
        CutPieces(l[k + 1], lo, hi);
        assert Apart(l[0], l[k + 1]);
        assert c[i] in c;
      }
      JoinDisjoint(c, r);
    }
  }

  lemma JoinDisjoint(c: seq<Area>, r: seq<Area>)
    requires NonEmpty(c) && NonEmpty(r) && Disjoint(c) && Disjoint(r)
    requires forall i, j :: 0 <= i < |c| && 0 <= j < |r| ==> Apart(c[i], r[j])
    ensures NonEmpty(c + r) && Disjoint(c + r)
  {
    forall i, j | 0 <= i < j < |c + r| ensures Apart((c + r)[i], (c + r)[j]) {
      if i < |c| && j >= |c| { assert Apart(c[i], r[j - |c|]); }
    }
  }

  // Unmapping [lo, hi): exactly the pages of the range go, and every other page keeps its
  // protection, flags and object.
  lemma RemoveMeaning(l: seq<Area>, r: seq<Area>, lo: nat, hi: nat)
    requires lo <= hi && NonEmpty(l) && Disjoint(l) && multiset(r) == multiset(CutAll(l, lo, hi))
    ensures NonEmpty(r) && Disjoint(r)
    ensures forall p, b :: lo <= p < hi ==> !Maps(r, p, b)
    ensures forall p :: !(lo <= p < hi) ==> SameMapping(l, r, p)
  {
    hide Cut, SameMapping;
    CutAllDisjoint(l, lo, hi);
    ReorderedDisjoint(r, CutAll(l, lo, hi));
    CutAllIs(l, lo, hi);
    forall p, b | lo <= p < hi ensures !Maps(r, p, b) {
      if Maps(r, p, b) {
        var i :| 0 <= i < |l| && b in Cut(l[i], lo, hi);
        CutPieces(l[i], lo, hi);
      }
    }
    forall p | !(lo <= p < hi) ensures SameMapping(l, r, p) {
      CutSame(l, r, lo, hi, p);
    }
  }

  lemma CutSame(l: seq<Area>, r: seq<Area>, lo: nat, hi: nat, p: int)
    requires lo <= hi && NonEmpty(l) && !(lo <= p < hi)
    requires forall b :: b in r <==> exists i :: 0 <= i < |l| && b in Cut(l[i], lo, hi)
    ensures SameMapping(l, r, p)
  {
    hide Cut;
    forall b | Maps(r, p, b) ensures exists a :: Maps(l, p, a) && Attributes(a) == Attributes(b) {
      var i :| 0 <= i < |l| && b in Cut(l[i], lo, hi);
      CutPieces(l[i], lo, hi);
      assert Maps(l, p, l[i]);
    }
    forall a | Maps(l, p, a) ensures exists b :: Maps(r, p, b) && Attributes(a) == Attributes(b) {
      var i :| 0 <= i < |l| && l[i] == a;
      CutPieces(a, lo, hi);
      var b :| b in Cut(a, lo, hi) && Covers(b, p);
      assert Maps(r, p, b);
    }
  }

  // The pages that stay mapped stay mapped to the same page of their object.
  ghost predicate KeepsObjectPages(l: seq<Area>, r: seq<Area>)
  {
    forall p, a, b :: Maps(l, p, a) && Maps(r, p, b) ==> ObjectPage(a, p) == ObjectPage(b, p)
  }

  // That holds exactly when no area is split: the upper part of a split area is given an
  // offset that is short by the length of the lower part.
  lemma ObjectPagesIff(l: seq<Area>, r: seq<Area>, lo: nat, hi: nat)
    requires lo <= hi && NonEmpty(l) && Disjoint(l) && multiset(r) == multiset(CutAll(l, lo, hi))
    ensures KeepsObjectPages(l, r) <==> forall i :: 0 <= i < |l| ==> !Split(l[i], lo, hi)
  {
    hide Cut;
    CutAllDisjoint(l, lo, hi);
    ReorderedDisjoint(r, CutAll(l, lo, hi));
    CutAllIs(l, lo, hi);
    if i :| 0 <= i < |l| && Split(l[i], lo, hi) {
      SplitMoves(l[i], lo, hi);
      assert Maps(r, hi, Upper(l[i], lo, hi)) && Maps(l, hi, l[i]);
    } else {
      forall p, a, b | Maps(l, p, a) && Maps(r, p, b) ensures ObjectPage(a, p) == ObjectPage(b, p) {
        var i :| 0 <= i < |l| && b in Cut(l[i], lo, hi);
        CutPieces(l[i], lo, hi);
        MapsUnique(l, p, a, l[i]);
      }
    }
  }

  lemma SplitMoves(a: Area, lo: nat, hi: nat)
    requires lo <= hi && Split(a, lo, hi)
    ensures Upper(a, lo, hi) in Cut(a, lo, hi) && Covers(a, hi) && Covers(Upper(a, lo, hi), hi)
    ensures ObjectPage(Upper(a, lo, hi), hi) == ObjectPage(a, hi) - (lo - a.start) != ObjectPage(a, hi)
  {
    assert Cut(a, lo, hi)[1] == Upper(a, lo, hi);
  }

  // ---------- the emptiness test ----------

  ghost predicate Overlaps(a: Area, lo: nat, hi: nat) { a.start < hi && lo < a.end }

  ghost predicate RangeEmpty(l: seq<Area>, lo: nat, hi: nat) { forall i :: 0 <= i < |l| ==> !Overlaps(l[i], lo, hi) }

  // The test that vmmap_is_range_empty makes of an area; it takes an area that starts
  // exactly at the end of the range for an overlapping one.
  predicate Clear(a: Area, lo: nat, hi: nat) { a.start > hi || a.end <= lo }

  // vmmap_is_range_empty: the answer for the last area.
  ghost function SaysEmpty(l: seq<Area>, lo: nat, hi: nat): bool { l == [] || Clear(l[|l| - 1], lo, hi) }

  // Exactly when the answer is wrong: it is yes though an area other than the last one
  // overlaps, or no though nothing does and the last area starts at the end of the range.
  lemma SaysEmptyExact(l: seq<Area>, lo: nat, hi: nat)
    requires NonEmpty(l) && lo < hi
    ensures SaysEmpty(l, lo, hi) ==>
              (RangeEmpty(l, lo, hi) <==> RangeEmpty(l[..if l == [] then 0 else |l| - 1], lo, hi))
    ensures !SaysEmpty(l, lo, hi) ==> (RangeEmpty(l, lo, hi) ==> l[|l| - 1].start == hi)
    ensures RangeEmpty(l, lo, hi) ==> (SaysEmpty(l, lo, hi) <==> l == [] || l[|l| - 1].start != hi)
  {
    if l != [] {
      var n := |l| - 1;
      assert forall i :: 0 <= i < n ==> l[..n][i] == l[i];
    }
  }

  // A mapped range that is taken for empty.
  lemma SaysEmptyWrongly()
    ensures var l := [Area(10, 20, 0, 0, 0, None), Area(30, 31, 0, 0, 0, None)];
            Sorted(l) && Disjoint(l) && SaysEmpty(l, 12, 15) && !RangeEmpty(l, 12, 15)
  {
    var l := [Area(10, 20, 0, 0, 0, None), Area(30, 31, 0, 0, 0, None)];
    assert Overlaps(l[0], 12, 15);
  }

  // ---------- a fixed-address mapping ----------

  // The areas after a successful vmmap_map at a given page.
  ghost function MapFixedResult(l: seq<Area>, a: Area): seq<Area>
    requires a.start <= a.end
  {
    Inserted(if SaysEmpty(l, a.start, a.end) then l else Removed(l, a.start, a.end), a)
  }

  // r maps the pages of a to a, and every other page as l does.
  ghost predicate Overlays(r: seq<Area>, l: seq<Area>, a: Area)
  {
    && (forall p :: Covers(a, p) ==> Maps(r, p, a))
    && (forall p :: !Covers(a, p) ==> SameMapping(l, r, p))
  }

  // It overlays exactly its range on the old mappings, keeping areas disjoint, if and only
  // if the emptiness test did not overlook an area before the last one.
  lemma MapFixedMeaning(l: seq<Area>, a: Area)
    requires NonEmpty(l) && Disjoint(l) && a.start < a.end
    ensures Disjoint(MapFixedResult(l, a)) <==> !SaysEmpty(l, a.start, a.end) || RangeEmpty(l, a.start, a.end)
    ensures Disjoint(MapFixedResult(l, a)) ==> Overlays(MapFixedResult(l, a), l, a)
  {
    hide Overlays, Inserted, CutAll, Removed;
    var lo, hi := a.start, a.end;
    var cut := Removed(l, lo, hi);
    RemovedPermutes(l, lo, hi);
    if SaysEmpty(l, lo, hi) {
      if RangeEmpty(l, lo, hi) {
        InsertedDisjoint(l, a);
        InsertedOverlays(l, l, a);
      } else {
        var i :| 0 <= i < |l| && Overlaps(l[i], lo, hi);
        InsertedOverlap(l, a, i);
      }
    } else {
      CutLeavesRoom(l, cut, lo, hi);
      InsertedDisjoint(cut, a);
      RemoveMeaning(l, cut, lo, hi);
      InsertedOverlays(l, cut, a);
    }
  }

  lemma CutLeavesRoom(l: seq<Area>, cut: seq<Area>, lo: nat, hi: nat)
    requires NonEmpty(l) && Disjoint(l) && lo < hi && multiset(cut) == multiset(CutAll(l, lo, hi))
    ensures NonEmpty(cut) && Disjoint(cut) && RangeEmpty(cut, lo, hi)
  {
    hide CutAll;
    RemoveMeaning(l, cut, lo, hi);
    forall i | 0 <= i < |cut| ensures !Overlaps(cut[i], lo, hi) {
      var p := if cut[i].start < lo then lo else cut[i].start;
      assert Covers(cut[i], p) && lo <= p < hi ==> Maps(cut, p, cut[i]);
    }
  }

  // Inserting an area changes no page outside it.
  lemma InsertedSame(l: seq<Area>, k: seq<Area>, a: Area, p: int)
    requires SameMapping(l, k, p) && !Covers(a, p)
    ensures SameMapping(l, Inserted(k, a), p)
  {
    hide Inserted, Attributes;
    InsertedMembers(k, a);
    forall b ensures Maps(Inserted(k, a), p, b) <==> Maps(k, p, b) {
    }
  }

  lemma InsertedOverlays(l: seq<Area>, k: seq<Area>, a: Area)
    requires forall p :: !Covers(a, p) ==> SameMapping(l, k, p)
    ensures Overlays(Inserted(k, a), l, a)
  {
    hide Inserted, SameMapping;
    InsertedMembers(k, a);
    forall p | !Covers(a, p) ensures SameMapping(l, Inserted(k, a), p) {
      InsertedSame(l, k, a, p);
    }
  }

  lemma InsertedMembers(l: seq<Area>, a: Area)
    ensures forall b :: b in Inserted(l, a) <==> b in l || b == a
  {
    var k := InsertAt(l, a);
    assert l == l[..k] + l[k..];
  }

  lemma InsertedDisjoint(l: seq<Area>, a: Area)
    requires NonEmpty(l) && Disjoint(l) && a.start < a.end && RangeEmpty(l, a.start, a.end)
    ensures Disjoint(Inserted(l, a))
  {
    InsertedPermutes(l, a);
    JoinDisjoint(l, [a]);
    ReorderedDisjoint(Inserted(l, a), l + [a]);
  }

  lemma InsertedOverlap(l: seq<Area>, a: Area, i: nat)
    requires i < |l| && Overlaps(l[i], a.start, a.end) && a.start < a.end && l[i].start < l[i].end
    ensures !Disjoint(Inserted(l, a))
  {
    var r, k := Inserted(l, a), InsertAt(l, a);
    assert r[k] == a;
    if i < k { assert r[i] == l[i] && !Apart(r[i], r[k]); } else { assert r[i + 1] == l[i] && !Apart(r[k], r[i + 1]); }
  }

  // ---------- the operations ----------

  // How many areas of a list would be split.
  ghost function Splits(l: seq<Area>, lo: nat, hi: nat): nat
  {
    if l == [] then 0 else (if Split(l[0], lo, hi) then 1 else 0) + Splits(l[1..], lo, hi)
  }

  lemma {:induction false} CutAllConcat(l: seq<Area>, k: seq<Area>, lo: nat, hi: nat)
    requires lo <= hi
    ensures CutAll(l + k, lo, hi) == CutAll(l, lo, hi) + CutAll(k, lo, hi)
    ensures Splits(l + k, lo, hi) == Splits(l, lo, hi) + Splits(k, lo, hi)
  {
    hide Cut;
    if l == [] {
      assert l + k == k;
    } else {
      CutAllConcat(l[1..], k, lo, hi);
      assert (l + k)[1..] == l[1..] + k && (l + k)[0] == l[0];
      assert Cut(l[0], lo, hi) + (CutAll(l[1..], lo, hi) + CutAll(k, lo, hi))
             == Cut(l[0], lo, hi) + CutAll(l[1..], lo, hi) + CutAll(k, lo, hi);
    }
  }

  lemma CutFirst(l: seq<Area>, i: nat, lo: nat, hi: nat)
    requires lo <= hi && i < |l|
    ensures CutAll(l[i..], lo, hi) == Cut(l[i], lo, hi) + CutAll(l[i + 1..], lo, hi)
    ensures Splits(l[i..], lo, hi) == (if Split(l[i], lo, hi) then 1 else 0) + Splits(l[i + 1..], lo, hi)
  {
    assert l[i..][0] == l[i] && l[i..][1..] == l[i + 1..];
  }

  // One turn of the walk of vmmap_remove, at area i: the list it leaves and the place of the
  // next turn. An upper part that goes right behind its lower part is passed over.
  function Turn(l: seq<Area>, i: nat, lo: nat, hi: nat): (r: (seq<Area>, nat))
    requires lo <= hi && i < |l|
    ensures r.1 <= |r.0|
  {
    if Split(l[i], lo, hi) then
      var m, u := l[i := l[i].(end := lo)], Upper(l[i], lo, hi);
      (Inserted(m, u), if InsertAt(m, u) <= i + 1 then i + 2 else i + 1)
    else
      (l[..i] + Cut(l[i], lo, hi) + l[i + 1..], i + |Cut(l[i], lo, hi)|)
  }

  // What is left to do shrinks with every turn.
  ghost function Left(l: seq<Area>, i: nat, lo: nat, hi: nat): nat
    requires i <= |l|
  {
    |l| - i + Splits(l[i..], lo, hi)
  }

  // What the areas will be: those before place i, and the rest cut.
  ghost function Due(l: seq<Area>, i: nat, lo: nat, hi: nat): multiset<Area>
    requires lo <= hi && i <= |l|
  {
    multiset(l[..i]) + multiset(CutAll(l[i..], lo, hi))
  }

  // Editing the list while walking it cuts every area once, and the walk ends.
  lemma TurnKeeps(l: seq<Area>, i: nat, lo: nat, hi: nat)
    requires lo <= hi && i < |l|
    ensures var (l', j) := Turn(l, i, lo, hi);
            && Due(l', j, lo, hi) == Due(l, i, lo, hi)
            && Left(l', j, lo, hi) < Left(l, i, lo, hi)
  {
    hide Due, Left, Inserted, InsertAt, Cut;
    if Split(l[i], lo, hi) {
      SplitTurn(l, i, lo, hi);
    } else {
      CutTurn(l, i, Cut(l[i], lo, hi), lo, hi);
    }
  }

  lemma CutTurn(l: seq<Area>, i: nat, kept: seq<Area>, lo: nat, hi: nat)
    requires lo <= hi && i < |l| && kept == Cut(l[i], lo, hi)
    ensures var l', j := l[..i] + kept + l[i + 1..], i + |kept|;
            Due(l', j, lo, hi) == Due(l, i, lo, hi) && Left(l', j, lo, hi) < Left(l, i, lo, hi)
  {
    hide CutAll, Splits, Cut;
    var l' := l[..i] + kept + l[i + 1..];
    assert l'[..i + |kept|] == l[..i] + kept;
    assert l'[i + |kept|..] == l[i + 1..];
    CutFirst(l, i, lo, hi);
  }

  lemma SplitTurn(l: seq<Area>, i: nat, lo: nat, hi: nat)
    requires lo <= hi && i < |l| && Split(l[i], lo, hi)
    ensures var m, u := l[i := l[i].(end := lo)], Upper(l[i], lo, hi);
            var l', j := Inserted(m, u), if InsertAt(m, u) <= i + 1 then i + 2 else i + 1;
            j <= |l'| && Due(l', j, lo, hi) == Due(l, i, lo, hi) && Left(l', j, lo, hi) < Left(l, i, lo, hi)
  {
    hide InsertAt;
    var m, u := l[i := l[i].(end := lo)], Upper(l[i], lo, hi);
    InsertPlace(m, u);
    SplitAt(l, i, lo, hi, InsertAt(m, u));
  }

  lemma SplitAt(l: seq<Area>, i: nat, lo: nat, hi: nat, k: nat)
    requires lo <= hi && i <= k <= |l| && i < |l| && Split(l[i], lo, hi)
    ensures var m := l[i := l[i].(end := lo)]; var l' := m[..k] + [Upper(l[i], lo, hi)] + m[k..];
            var j := if k <= i + 1 then i + 2 else i + 1;
            j <= |l'| && Due(l', j, lo, hi) == Due(l, i, lo, hi) && Left(l', j, lo, hi) < Left(l, i, lo, hi)
  {
    hide CutAll, Splits;
    var u, low := Upper(l[i], lo, hi), l[i].(end := lo);
    var m := l[i := low];
    var l' := m[..k] + [u] + m[k..];
    CutFirst(l, i, lo, hi);
    assert Cut(l[i], lo, hi) == [low, u];
    if k <= i + 1 {
      SplitHere(l, l', i, lo, hi, k);
    } else {
      SplitAhead(l, l', i, lo, hi, k);
    }
  }

  ghost function Walk(l: seq<Area>, i: nat, lo: nat, hi: nat): seq<Area>
    requires lo <= hi && i <= |l|
    decreases Left(l, i, lo, hi)
  {
    if i == |l| then l else
      TurnKeeps(l, i, lo, hi);
      Walk(Turn(l, i, lo, hi).0, Turn(l, i, lo, hi).1, lo, hi)
  }

  // The list that vmmap_remove leaves.
  ghost function Removed(l: seq<Area>, lo: nat, hi: nat): seq<Area>
    requires lo <= hi
  {
    Walk(l, 0, lo, hi)
  }

  lemma {:induction false} WalkPermutes(l: seq<Area>, i: nat, lo: nat, hi: nat)
    requires lo <= hi && i <= |l|
    ensures multiset(Walk(l, i, lo, hi)) == Due(l, i, lo, hi)
    decreases Left(l, i, lo, hi)
  {
    hide Turn, CutAll;
    if i < |l| {
      TurnKeeps(l, i, lo, hi);
      WalkPermutes(Turn(l, i, lo, hi).0, Turn(l, i, lo, hi).1, lo, hi);
    } else {
      NothingDue(l, lo, hi);
    }
  }

  lemma WalkOn(l: seq<Area>, i: nat, lo: nat, hi: nat)
    requires lo <= hi && i <= |l|
    ensures Walk(l, i, lo, hi) == if i == |l| then l else Walk(Turn(l, i, lo, hi).0, Turn(l, i, lo, hi).1, lo, hi)
  {
    hide Turn;
  }

  lemma NothingDue(l: seq<Area>, lo: nat, hi: nat)
    requires lo <= hi
    ensures Due(l, |l|, lo, hi) == multiset(l)
  {
    assert l[..|l|] == l && l[|l|..] == [];
  }

  // Its areas are those of l, each cut once.
  lemma RemovedPermutes(l: seq<Area>, lo: nat, hi: nat)
    requires lo <= hi
    ensures multiset(Removed(l, lo, hi)) == multiset(CutAll(l, lo, hi))
  {
    WalkPermutes(l, 0, lo, hi);
    assert l[0..] == l && l[..0] == [];
  }

  lemma SplitHere(l: seq<Area>, l': seq<Area>, i: nat, lo: nat, hi: nat, k: nat)
    requires i <= k <= i + 1 <= |l|
    requires var m := l[i := l[i].(end := lo)]; l' == m[..k] + [Upper(l[i], lo, hi)] + m[k..]
    ensures multiset(l'[..i + 2]) == multiset(l[..i]) + multiset([l[i].(end := lo), Upper(l[i], lo, hi)])
    ensures l'[i + 2..] == l[i + 1..]
  {
    var u, low := Upper(l[i], lo, hi), l[i].(end := lo);
    assert l'[..i + 2] == l[..i] + (if k == i then [u, low] else [low, u]);
  }

  lemma SplitAhead(l: seq<Area>, l': seq<Area>, i: nat, lo: nat, hi: nat, k: nat)
    requires lo <= hi && i + 1 < k <= |l| && Split(l[i], lo, hi)
    requires var m := l[i := l[i].(end := lo)]; l' == m[..k] + [Upper(l[i], lo, hi)] + m[k..]
    ensures l'[..i + 1] == l[..i] + [l[i].(end := lo)]
    ensures multiset(CutAll(l'[i + 1..], lo, hi))
            == multiset(CutAll(l[i + 1..], lo, hi)) + multiset{Upper(l[i], lo, hi)}
    ensures Splits(l'[i + 1..], lo, hi) == Splits(l[i + 1..], lo, hi)
  {
    hide Cut, CutAll, Splits;
    var u, rest := Upper(l[i], lo, hi), l[i + 1..];
    var a, b := rest[..k - i - 1], rest[k - i - 1..];
    assert rest == a + b;
    assert l'[i + 1..] == a + ([u] + b);
    CutAllConcat(a, [u] + b, lo, hi);
    CutAllConcat(a, b, lo, hi);
    UpperStays(l[i], b, lo, hi);
  }

  // The upper part is past the range: cutting it again changes nothing.
  lemma UpperStays(a: Area, b: seq<Area>, lo: nat, hi: nat)
    requires lo <= hi && Split(a, lo, hi)
    ensures CutAll([Upper(a, lo, hi)] + b, lo, hi) == [Upper(a, lo, hi)] + CutAll(b, lo, hi)
    ensures Splits([Upper(a, lo, hi)] + b, lo, hi) == Splits(b, lo, hi)
  {
    var u := Upper(a, lo, hi);
    assert ([u] + b)[1..] == b;
    assert Cut(u, lo, hi) == [u];
  }

  // ---------- the order of the areas ----------

  // Without a split the walk cuts area after area.
  lemma {:induction false} WalkNoSplit(l: seq<Area>, i: nat, lo: nat, hi: nat)
    requires lo <= hi && i <= |l| && forall j :: i <= j < |l| ==> !Split(l[j], lo, hi)
    ensures Walk(l, i, lo, hi) == l[..i] + CutAll(l[i..], lo, hi)
    decreases |l| - i
  {
    hide Cut, CutAll, Splits;
    WalkOn(l, i, lo, hi);
    if i == |l| {
      NothingCut(l, lo, hi);
    } else {
      var kept := Cut(l[i], lo, hi);
      var l', j := l[..i] + kept + l[i + 1..], i + |kept|;
      assert l'[..j] == l[..i] + kept;
      assert l'[j..] == l[i + 1..];
      forall n | j <= n < |l'| ensures !Split(l'[n], lo, hi) {
        assert l'[n] == l'[j..][n - j] == l[i + 1..][n - j] == l[i + 1 + n - j];
      }
      WalkNoSplit(l', j, lo, hi);
      CutFirst(l, i, lo, hi);
      assert l[..i] + kept + CutAll(l[i + 1..], lo, hi) == l[..i] + (kept + CutAll(l[i + 1..], lo, hi));
    }
  }

  lemma NothingCut(l: seq<Area>, lo: nat, hi: nat)
    requires lo <= hi
    ensures l == l[..|l|] + CutAll(l[|l|..], lo, hi)
  {
    assert l[|l|..] == [] && l[..|l|] == l;
  }

  // Areas that the range does not touch stay as they are.
  ghost predicate Clears(a: Area, lo: nat, hi: nat) { a.end <= lo || a.start >= hi }

  lemma {:induction false} CutAllClear(l: seq<Area>, lo: nat, hi: nat)
    requires lo <= hi && NonEmpty(l) && forall i :: 0 <= i < |l| ==> Clears(l[i], lo, hi)
    ensures CutAll(l, lo, hi) == l
  {
    if l != [] {
      assert Clears(l[0], lo, hi) && Cut(l[0], lo, hi) == [l[0]];
      forall i | 0 <= i < |l[1..]| ensures Clears(l[1..][i], lo, hi) {
        assert l[1..][i] == l[i + 1];
      }
      CutAllClear(l[1..], lo, hi);
      assert [l[0]] + l[1..] == l;
    }
  }

  // The walk passes over such areas.
  lemma {:induction false} WalkTo(l: seq<Area>, i: nat, k: nat, lo: nat, hi: nat)
    requires lo <= hi && i <= k <= |l| && NonEmpty(l) && forall j :: i <= j < k ==> Clears(l[j], lo, hi)
    ensures Walk(l, i, lo, hi) == Walk(l, k, lo, hi)
    decreases k - i
  {
    if i < k {
      WalkOn(l, i, lo, hi);
      assert Clears(l[i], lo, hi) && Cut(l[i], lo, hi) == [l[i]];
      assert l[..i] + [l[i]] + l[i + 1..] == l;
      WalkTo(l, i + 1, k, lo, hi);
    }
  }

  // In a disjoint list at most one area is split, and then no other is touched.
  lemma RemovedSplit(l: seq<Area>, i: nat, lo: nat, hi: nat)
    requires lo <= hi && NonEmpty(l) && Disjoint(l) && i < |l| && Split(l[i], lo, hi)
    ensures Removed(l, lo, hi) == Inserted(l[i := l[i].(end := lo)], Upper(l[i], lo, hi))
    ensures forall j :: 0 <= j < |l| && j != i ==> Clears(l[j], lo, hi) && !Split(l[j], lo, hi)
  {
    hide Walk, Inserted, InsertAt, CutAll;
    forall j | 0 <= j < |l| && j != i ensures Clears(l[j], lo, hi) && !Split(l[j], lo, hi) {
      assert if j < i then Apart(l[j], l[i]) else Apart(l[i], l[j]);
    }
    WalkTo(l, 0, i, lo, hi);
    WalkOn(l, i, lo, hi);
    var m, u := l[i := l[i].(end := lo)], Upper(l[i], lo, hi);
    var (l', j) := Turn(l, i, lo, hi);
    InsertedMembers(m, u);
    forall n | 0 <= n < |l'| ensures l'[n].start < l'[n].end && Clears(l'[n], lo, hi) && !Split(l'[n], lo, hi) {
      assert l'[n] in l';
      if l'[n] != u {
        var q :| 0 <= q < |m| && m[q] == l'[n];
      }
    }
    WalkNoSplit(l', j, lo, hi);
    CutAllClear(l'[j..], lo, hi);
    assert l'[..j] + l'[j..] == l';
  }

  lemma RemovedNoSplit(l: seq<Area>, lo: nat, hi: nat)
    requires lo <= hi && forall i :: 0 <= i < |l| ==> !Split(l[i], lo, hi)
    ensures Removed(l, lo, hi) == CutAll(l, lo, hi)
  {
    WalkNoSplit(l, 0, lo, hi);
    assert l[0..] == l && l[..0] == [];
  }

  // Cutting areas that are in order leaves them in order, unless one is split.
  lemma {:induction false} CutAllSorted(l: seq<Area>, lo: nat, hi: nat)
    requires lo <= hi && Sorted(l) && NonEmpty(l) && Disjoint(l) && forall i :: 0 <= i < |l| ==> !Split(l[i], lo, hi)
    ensures Sorted(CutAll(l, lo, hi))
    ensures l != [] ==> forall b :: b in CutAll(l, lo, hi) ==> l[0].start <= b.start
    ensures l != [] && l[0].start > hi ==> CutAll(l, lo, hi) == l
  {
    if l != [] {
      var a, r := l[0], l[1..];
      forall i, j | 0 <= i < j < |r| ensures r[i].start <= r[j].start && Apart(r[i], r[j]) {
        assert r[i] == l[i + 1] && r[j] == l[j + 1];
      }
      assert forall i :: 0 <= i < |r| ==> r[i] == l[i + 1];
      CutAllSorted(r, lo, hi);
      if r != [] { assert l[1] == r[0] && Apart(l[0], l[1]) && l[0].start <= l[1].start; }
      CutSortedCons(a, r, lo, hi);
    }
  }

  lemma CutSortedCons(a: Area, r: seq<Area>, lo: nat, hi: nat)
    requires lo <= hi && a.start < a.end && !Split(a, lo, hi) && Sorted(CutAll(r, lo, hi))
    requires r != [] ==> a.end <= r[0].start && forall b :: b in CutAll(r, lo, hi) ==> r[0].start <= b.start
    requires r != [] && r[0].start > hi ==> CutAll(r, lo, hi) == r
    ensures var c := Cut(a, lo, hi) + CutAll(r, lo, hi);
            && Sorted(c) && (forall b :: b in c ==> a.start <= b.start) && (a.start > hi ==> c == [a] + r)
  {
    hide CutAll;
    var k, t := Cut(a, lo, hi), CutAll(r, lo, hi);
    if r == [] { assert t == [] by { NoneCut(lo, hi); } }
    assert forall b :: b in t ==> r != [] && r[0].start <= b.start;
    forall i, j | 0 <= i < j < |k + t| ensures (k + t)[i].start <= (k + t)[j].start {
      if i < |k| { assert (k + t)[j] in t; }
    }
  }

  lemma NoneCut(lo: nat, hi: nat)
    requires lo <= hi
    ensures CutAll([], lo, hi) == []
  {
  }

  // vmmap_remove keeps the list sorted exactly if it splits no area before the last two.
  lemma RemoveSortedIff(l: seq<Area>, lo: nat, hi: nat)
    requires Sorted(l) && Disjoint(l) && NonEmpty(l) && lo <= hi
    ensures Sorted(Removed(l, lo, hi)) <==> forall i :: 0 <= i < |l| && Split(l[i], lo, hi) ==> i >= |l| - 2
  {
    hide Removed, Inserted, CutAll;
    if i :| 0 <= i < |l| && Split(l[i], lo, hi) {
      RemovedSplit(l, i, lo, hi);
      SplitSorted(l, i, lo, hi);
    } else {
      RemovedNoSplit(l, lo, hi);
      CutAllSorted(l, lo, hi);
    }
  }

  lemma SplitSorted(l: seq<Area>, i: nat, lo: nat, hi: nat)
    requires Sorted(l) && Disjoint(l) && NonEmpty(l) && lo <= hi && i < |l| && Split(l[i], lo, hi)
    ensures var m := l[i := l[i].(end := lo)]; Sorted(m) && (Sorted(Inserted(m, Upper(l[i], lo, hi))) <==> i >= |l| - 2)
  {
    var m := l[i := l[i].(end := lo)];
    InsertSortedIff(m, Upper(l[i], lo, hi));
    if i < |l| - 2 { assert Apart(l[i], l[|l| - 2]); }
  }

  // Three areas, the first of which is split.
  lemma RemoveUnsorts()
    ensures var b, c := Area(20, 21, 0, 0, 0, None), Area(30, 31, 0, 0, 0, None);
            var l := [Area(0, 10, 0, 0, 0, None), b, c];
            && Sorted(l) && Disjoint(l) && !Sorted(Removed(l, 3, 5))
            && Removed(l, 3, 5) == [Area(0, 3, 0, 0, 0, None), b, Area(5, 10, 2, 0, 0, None), c]
  {
    hide Removed, CutAll;
    var b, c := Area(20, 21, 0, 0, 0, None), Area(30, 31, 0, 0, 0, None);
    var l := [Area(0, 10, 0, 0, 0, None), b, c];
    RemovedSplit(l, 0, 3, 5);
    RemoveSortedIff(l, 3, 5);
    assert Split(l[0], 3, 5);
    InsertBeforeLast([Area(0, 3, 0, 0, 0, None), b], c, Area(5, 10, 2, 0, 0, None));
    assert [Area(0, 3, 0, 0, 0, None), b] + [c] == l[0 := Area(0, 3, 0, 0, 0, None)];
  }

  lemma InsertBeforeLast(l: seq<Area>, last: Area, a: Area)
    requires last.start > a.start
    ensures Inserted(l + [last], a) == l + [a, last]
  {
    var m := l + [last];
    assert m[|l|] == last;
    assert m[..|l|] == l && m[|l|..] == [last];
  }

  // Insertion does not put other areas in order.
  lemma InsertedSorted(l: seq<Area>, a: Area)
    ensures Sorted(Inserted(l, a)) <==> Sorted(l) && (|l| < 2 || l[|l| - 2].start <= a.start)
  {
    if Sorted(l) { InsertSortedIff(l, a); }
    if Sorted(Inserted(l, a)) {
      var r, k := Inserted(l, a), InsertAt(l, a);
      forall i, j | 0 <= i < j < |l| ensures l[i].start <= l[j].start {
        assert r[if i < k then i else i + 1] == l[i] && r[if j < k then j else j + 1] == l[j];
      }
    }
  }

  // Before the insertion the list is that of vmmap_remove also where the range is empty.
  lemma MapFixedBase(l: seq<Area>, lo: nat, hi: nat)
    requires NonEmpty(l) && lo < hi && RangeEmpty(l, lo, hi)
    ensures Removed(l, lo, hi) == l
  {
    hide Removed, CutAll;
    forall i | 0 <= i < |l| ensures Clears(l[i], lo, hi) && !Split(l[i], lo, hi) {
      assert !Overlaps(l[i], lo, hi);
    }
    RemovedNoSplit(l, lo, hi);
    CutAllClear(l, lo, hi);
  }

  // With a split, whether the mapping that fills the gap is in order.
  lemma FillsSplit(l: seq<Area>, i: nat, a: Area)
    requires Sorted(l) && Disjoint(l) && NonEmpty(l) && a.start < a.end && i < |l| && Split(l[i], a.start, a.end)
    ensures Sorted(Inserted(Removed(l, a.start, a.end), a)) <==> |l| < 2 || l[|l| - 2].end <= a.end
  {
    hide Removed;
    var lo, hi, n := a.start, a.end, |l|;
    var m, u := l[i := l[i].(end := lo)], Upper(l[i], lo, hi);
    RemovedSplit(l, i, lo, hi);
    SplitSorted(l, i, lo, hi);
    var b := Inserted(m, u);
    InsertedSorted(b, a);
    assert i < n - 1 ==> Apart(l[i], l[n - 1]) && l[n - 1].start > hi && m[n - 1] == l[n - 1];
    assert i < n - 2 ==> Apart(l[i], l[n - 2]);
    if i == n - 1 {
      assert forall j :: 0 <= j < n ==> m[j].start <= m[n - 1].start < lo;
      assert InsertAt(m, u) == n && b[n - 1] == m[n - 1];
      assert n >= 2 ==> Apart(l[n - 2], l[n - 1]);
    } else if i == n - 2 {
      assert InsertAt(m, u) == n - 1 && b[n - 1] == u;
    }
  }

  // Without one, the area before the last decides.
  lemma LastTwo(l: seq<Area>, lo: nat, hi: nat)
    requires lo < hi && Sorted(l) && NonEmpty(l) && Disjoint(l) && forall i :: 0 <= i < |l| ==> !Split(l[i], lo, hi)
    ensures var c := CutAll(l, lo, hi); (|c| < 2 || c[|c| - 2].start <= lo) <==> |l| < 2 || l[|l| - 2].end <= hi
  {
    hide CutAll, Cut, Sorted, Disjoint;
    var n := |l|;
    if n >= 2 {
      var x, y := l[n - 2], l[n - 1];
      CutLast(l, lo, hi);
      CutLast(l[..n - 1], lo, hi);
      assert l[..n - 1][n - 2] == x && l[..n - 1][..n - 2] == l[..n - 2];
      CutOne(x, lo, hi);
      CutOne(y, lo, hi);
      assert x.end <= y.start by { InOrder(l, n - 2, n - 1); }
      if x.end <= hi { FirstBelow(l, lo, hi); }
    } else if n == 1 {
      assert l == [l[0]];
      CutOne(l[0], lo, hi);
    } else {
      NoneCut(lo, hi);
    }
  }

  lemma CutLast(l: seq<Area>, lo: nat, hi: nat)
    requires lo <= hi && l != []
    ensures CutAll(l, lo, hi) == CutAll(l[..|l| - 1], lo, hi) + Cut(l[|l| - 1], lo, hi)
  {
    var n := |l| - 1;
    assert l == l[..n] + [l[n]];
    CutAllConcat(l[..n], [l[n]], lo, hi);
    assert [l[n]][1..] == [];
    assert Cut(l[n], lo, hi) + [] == Cut(l[n], lo, hi);
  }

  lemma InOrder(l: seq<Area>, i: nat, j: nat)
    requires Sorted(l) && NonEmpty(l) && Disjoint(l) && i < j < |l|
    ensures l[i].end <= l[j].start
  {
    assert Apart(l[i], l[j]);
  }

  lemma FirstBelow(l: seq<Area>, lo: nat, hi: nat)
    requires lo <= hi && Sorted(l) && NonEmpty(l) && Disjoint(l) && forall i :: 0 <= i < |l| ==> !Split(l[i], lo, hi)
    requires |l| >= 2 && l[|l| - 2].end <= hi
    ensures forall b :: b in CutAll(l[..|l| - 1], lo, hi) ==> b.start < lo
  {
    hide Sorted, Disjoint;
    var k := l[..|l| - 1];
    forall i | 0 <= i < |k| ensures k[i].end <= hi && !Split(k[i], lo, hi) {
      assert k[i] == l[i];
      if i < |l| - 2 { InOrder(l, i, |l| - 2); }
    }
    CutBelow(k, lo, hi);
  }

  lemma CutOne(x: Area, lo: nat, hi: nat)
    requires lo <= hi && x.start < x.end && !Split(x, lo, hi)
    ensures CutAll([x], lo, hi) == Cut(x, lo, hi) && |Cut(x, lo, hi)| <= 1
    ensures x.end > hi ==> |Cut(x, lo, hi)| == 1 && Cut(x, lo, hi)[0].start >= hi
    ensures x.end <= hi && |Cut(x, lo, hi)| == 1 ==> Cut(x, lo, hi)[0].start < lo
  {
    NoneCut(lo, hi);
    assert [x][1..] == [];
  }

  lemma {:induction false} CutBelow(l: seq<Area>, lo: nat, hi: nat)
    requires lo <= hi && NonEmpty(l) && forall i :: 0 <= i < |l| ==> l[i].end <= hi && !Split(l[i], lo, hi)
    ensures forall b :: b in CutAll(l, lo, hi) ==> b.start < lo
  {
    if l != [] {
      assert forall i :: 0 <= i < |l[1..]| ==> l[1..][i] == l[i + 1];
      CutBelow(l[1..], lo, hi);
      CutOne(l[0], lo, hi);
    }
  }

  // A fixed mapping that overlooks nothing keeps the list sorted exactly if at most the last
  // area reaches beyond it.
  lemma MapFixedSortedIff(l: seq<Area>, a: Area)
    requires Sorted(l) && Disjoint(l) && NonEmpty(l) && a.start < a.end
    requires !SaysEmpty(l, a.start, a.end) || RangeEmpty(l, a.start, a.end)
    ensures Sorted(MapFixedResult(l, a)) <==> |l| < 2 || l[|l| - 2].end <= a.end
  {
    hide Removed, Inserted, CutAll, SaysEmpty, RangeEmpty;
    var lo, hi := a.start, a.end;
    if RangeEmpty(l, lo, hi) { MapFixedBase(l, lo, hi); }
    if i :| 0 <= i < |l| && Split(l[i], lo, hi) {
      FillsSplit(l, i, a);
    } else {
      RemovedNoSplit(l, lo, hi);
      CutAllSorted(l, lo, hi);
      InsertedSorted(CutAll(l, lo, hi), a);
      LastTwo(l, lo, hi);
    }
  }

  // The object is set after the area is in its place.
  lemma InsertedObject(l: seq<Area>, a: Area, made: Option<Option<nat>>)
    ensures InsertAt(l, a) < |Inserted(l, a)|
    ensures made.Some? ==> Inserted(l, a)[InsertAt(l, a) := a.(obj := made.value)] == Inserted(l, a.(obj := made.value))
  {
  }

  class VmMap {
    var areas: seq<Area>

    // vmmap_create
    constructor ()
      ensures areas == []
    {
      areas := [];
    }

    // vmmap_insert. Returns where the area went.
    method Insert(a: Area) returns (k: nat)
      requires a.start < a.end
      modifies this
      ensures k == InsertAt(old(areas), a) && areas == Inserted(old(areas), a)
    {
      k := 0;
      if areas != [] {
        var before, i, last := false, 0, 0;
        while i < |areas|
          invariant 0 <= i <= |areas| && (i > 0 ==> last == i - 1)
          invariant before <==> exists j :: 0 <= j < i && areas[j].start > a.start
        {
          last := i;
          if areas[i].start > a.start {
            before := true;
          }
          i := i + 1;
        }
        k := if before then last else |areas|;
      }
      areas := areas[..k] + [a] + areas[k..];
    }

    // vmmap_lookup. Of several areas that cover the page it finds the last, since the loop
    // goes on after a hit.
    method Lookup(vfn: nat) returns (vma: Option<Area>)
      ensures vma.None? <==> forall i :: 0 <= i < |areas| ==> !Covers(areas[i], vfn)
      ensures vma.Some? ==> exists i :: 0 <= i < |areas| && areas[i] == vma.value && Covers(areas[i], vfn)
                                        && forall j :: i < j < |areas| ==> !Covers(areas[j], vfn)
    {
      vma := None;
      var i := 0;
      while i < |areas|
        invariant 0 <= i <= |areas|
        invariant vma.None? <==> forall j :: 0 <= j < i ==> !Covers(areas[j], vfn)
        invariant vma.Some? ==> exists k :: 0 <= k < i && areas[k] == vma.value && Covers(areas[k], vfn)
                                            && forall j :: k < j < i ==> !Covers(areas[j], vfn)
      {
        if areas[i].start <= vfn && areas[i].end > vfn {
          vma := Some(areas[i]);
        }
        i := i + 1;
      }
    }

    // vmmap_is_range_empty
    method IsRangeEmpty(startvfn: nat, npages: nat) returns (empty: bool)
      requires npages > 0
      ensures empty == SaysEmpty(areas, startvfn, startvfn + npages)
    {
      var endvfn := startvfn + npages;
      empty := true;
      var i := 0;
      while i < |areas|
        invariant 0 <= i <= |areas|
        invariant empty == (i == 0 || Clear(areas[i - 1], startvfn, endvfn))
      {
        empty := areas[i].start > endvfn || areas[i].end <= startvfn;
        i := i + 1;
      }
    }

    // vmmap_remove
    method Remove(lopage: nat, npages: nat)
      modifies this
      ensures areas == Removed(old(areas), lopage, lopage + npages)
    {
      hide Walk, Left, Turn;
      var lo, hi := lopage, lopage + npages;
      var i := 0;
      while i < |areas|
        invariant 0 <= i <= |areas| && Walk(areas, i, lo, hi) == Removed(old(areas), lo, hi)
        decreases Left(areas, i, lo, hi)
      {
        TurnKeeps(areas, i, lo, hi);
        WalkOn(areas, i, lo, hi);
        i := RemoveFrom(i, lopage, npages);
      }
      WalkOn(areas, i, lo, hi);
    }

    // The body of its loop. `next` is the area whose turn it is after this one; an area
    // inserted at its place is passed over.
    method RemoveFrom(i: nat, lopage: nat, npages: nat) returns (next: nat)
      requires i < |areas|
      modifies this
      ensures (areas, next) == Turn(old(areas), i, lopage, lopage + npages)
    {
      hide InsertAt;
      var lo, hi := lopage, lopage + npages;
      var a := areas[i];
      next := i + 1;
      if a.start < lo && a.end > hi {
        var newvma := a.(start := hi, off := a.off + npages);
        areas := areas[i := a.(end := lo)];
        var k := Insert(newvma);
        if k <= next {
          next := next + 1;
        }
      } else {
        if a.start < lo && a.end <= hi && a.end >= lo {
          areas := areas[i := a.(end := lo)];
        } else if a.start >= lo && a.end > hi && a.start <= hi {
          areas := areas[i := a.(off := a.off + hi - a.start, start := hi)];
        } else if a.start >= lo && a.end <= hi {
          areas := areas[..i] + areas[i + 1..];
          next := i;
        }
        assert areas == old(areas)[..i] + Cut(a, lo, hi) + old(areas)[i + 1..];
      }
    }

    // vmmap_map at a given page. `room` says whether there is memory for the area, and
    // `made` what object it gets: nothing if creating the object fails.
    method MapFixed(lopage: nat, npages: nat, prot: nat, flags: nat, off: int, room: bool, made: Option<Option<nat>>)
      returns (ok: bool)
      requires npages > 0
      modifies this
      ensures ok <==> room && made.Some?
      ensures room ==>
                areas == MapFixedResult(old(areas),
                           Area(lopage, lopage + npages, off, prot, flags, if made.Some? then made.value else None))
      ensures !room ==>
                areas == if SaysEmpty(old(areas), lopage, lopage + npages) then old(areas)
                         else Removed(old(areas), lopage, lopage + npages)
    {
      hide Removed, SaysEmpty, InsertAt, Inserted;
      var empty := IsRangeEmpty(lopage, npages);
      if !empty {
        Remove(lopage, npages);
      }
      ok := false;
      if room {
        var newarea := Area(lopage, lopage + npages, off, prot, flags, None);
        ghost var l := areas;
        var k := Insert(newarea);
        InsertedObject(l, newarea, made);
        if made.Some? {
          areas := areas[k := newarea.(obj := made.value)];
          ok := true;
        }
      }
    }
  }
}
