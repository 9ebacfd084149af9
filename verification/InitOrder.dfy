/**
 Calling the initialisation functions in dependency order (kernel/util/init.c). Functions are
 the places of the list; a dependency is a name, and stands for the first function that has
 it. Calling a function is adding it to `order`.
 */
module InitOrder {
  import opened Common
  import opened Lists

  datatype Function = Function(name: string, deps: seq<string>)

  type Table = seq<Function>

  // The first function with a name.
  function Find(t: Table, name: string): (r: Option<nat>)
    ensures r.Some? ==> r.value < |t| && t[r.value].name == name && forall i :: 0 <= i < r.value ==> t[i].name != name
    ensures r.None? ==> forall i :: 0 <= i < |t| ==> t[i].name != name
  {
    if t == [] then None
    else if t[0].name == name then Some(0)
    else match Find(t[1..], name)
         case None => None
         case Some(i) => Some(i + 1)
  }

  // The function that dependency k of f stands for.
  function Dep(t: Table, f: nat, k: nat): (r: Option<nat>)
    ensures r.Some? ==> f < |t| && k < |t[f].deps| && r.value < |t|
  {
    if f < |t| && k < |t[f].deps| then Find(t, t[f].deps[k]) else None
  }

  // f depends on g.
  ghost predicate Needs(t: Table, f: nat, g: nat)
  {
    f < |t| && exists k: nat :: k < |t[f].deps| && Dep(t, f, k) == Some(g)
  }

  // The first k dependencies of f exist and are in the order.
  ghost predicate Met(t: Table, order: seq<nat>, f: nat, k: nat)
  {
    f < |t| && k <= |t[f].deps| && forall j: nat :: j < k ==> Dep(t, f, j).Some? && Dep(t, f, j).value in order
  }

  // Each function is called once, after all that it depends on.
  ghost predicate Ordered(t: Table, order: seq<nat>)
  {
    && NoDup(order)
    && forall i :: 0 <= i < |order| ==> order[i] < |t| && Met(t, order[..i], order[i], |t[order[i]].deps|)
  }

  lemma OrderedSnoc(t: Table, order: seq<nat>, f: nat)
    requires Ordered(t, order) && f !in order && f < |t| && Met(t, order, f, |t[f].deps|)
    ensures Ordered(t, order + [f])
  {
    var r := order + [f];
    forall i | 0 <= i < |r| ensures r[i] < |t| && Met(t, r[..i], r[i], |t[r[i]].deps|) {
      assert r[..i] == if i < |order| then order[..i] else order;
    }
  }

  lemma MetMore(t: Table, order: seq<nat>, more: seq<nat>, f: nat, k: nat)
    requires Met(t, order, f, k) && order <= more
    ensures Met(t, more, f, k)
  {
    forall j: nat | j < k ensures Dep(t, f, j).value in more {
      assert Dep(t, f, j).value in order;
    }
  }

  // ---------- a cycle cannot be ordered ----------

  ghost predicate Path(t: Table, p: seq<nat>)
  {
    |p| >= 2 && forall i :: 0 <= i < |p| - 1 ==> Needs(t, p[i], p[i + 1])
  }

  ghost predicate Cyclic(t: Table)
  {
    exists p :: Path(t, p) && p[0] == p[|p| - 1]
  }

  lemma {:induction false} PathGoesBack(t: Table, order: seq<nat>, p: seq<nat>, i: nat)
    requires Ordered(t, order) && Path(t, p) && i < |order| && order[i] == p[0]
    ensures p[|p| - 1] in order[..i]
    decreases |p|
  {
    assert Needs(t, p[0], p[1]);
    var k: nat :| k < |t[p[0]].deps| && Dep(t, p[0], k) == Some(p[1]);
    assert Met(t, order[..i], p[0], |t[p[0]].deps|);
    if |p| > 2 {
      var j :| 0 <= j < i && order[..i][j] == p[1];
      PathGoesBack(t, order, p[1..], j);
    }
  }

  lemma CyclicUnordered(t: Table, order: seq<nat>)
    requires Cyclic(t) && (forall f :: 0 <= f < |t| ==> f in order)
    ensures !Ordered(t, order)
  {
    if Ordered(t, order) {
      var p :| Path(t, p) && p[0] == p[|p| - 1];
      assert Needs(t, p[0], p[1]) && p[0] in order;
      var i :| 0 <= i < |order| && order[i] == p[0];
      PathGoesBack(t, order, p, i);
    }
  }

  // ---------- what one search calls ----------

  // All dependencies exist and none is circular.
  ghost predicate Ranked(t: Table, rank: seq<nat>)
  {
    && |rank| == |t|
    && forall f: nat, k: nat :: f < |t| && k < |t[f].deps| ==> Dep(t, f, k).Some? && rank[Dep(t, f, k).value] < rank[f]
  }

  // What the first k dependencies of f take, in order, if those in `done` are called already.
  ghost function Below(t: Table, rank: seq<nat>, done: set<nat>, f: nat, k: nat): seq<nat>
    requires Ranked(t, rank) && f < |t| && k <= |t[f].deps|
    decreases rank[f], k
  {
    if k == 0 then [] else
      var d := Dep(t, f, k - 1).value;
      Below(t, rank, done, f, k - 1) + if d in done then [] else Below(t, rank, done, d, |t[d].deps|) + [d]
  }

  ghost function Needed(t: Table, rank: seq<nat>, done: set<nat>, f: nat): seq<nat>
    requires Ranked(t, rank) && f < |t|
  {
    Below(t, rank, done, f, |t[f].deps|) + [f]
  }

  // Nothing comes up twice, and nothing that is marked.
  ghost predicate Fits(marked: set<nat>, p: seq<nat>) { NoDup(p) && forall x :: x in p ==> x !in marked }

  ghost function Elements(p: seq<nat>): set<nat> { set x | x in p }

  lemma FitsConcat(marked: set<nat>, p: seq<nat>, q: seq<nat>)
    ensures Fits(marked, p + q) <==> Fits(marked, p) && Fits(marked + Elements(p), q)
  {
    var r := p + q;
    if Fits(marked, r) {
      forall i, j | 0 <= i < j < |p| ensures p[i] != p[j] { assert r[i] == p[i] && r[j] == p[j]; }
      forall i, j | 0 <= i < j < |q| ensures q[i] != q[j] { assert r[|p| + i] == q[i] && r[|p| + j] == q[j]; }
      forall x | x in q ensures x !in marked + Elements(p) {
        var j :| 0 <= j < |q| && q[j] == x;
        assert r[|p| + j] == x && x in r;
        assert forall i :: 0 <= i < |p| ==> r[i] == p[i];
      }
      forall x | x in p ensures x !in marked { assert x in r; }
    }
    if Fits(marked, p) && Fits(marked + Elements(p), q) {
      forall i, j | 0 <= i < j < |r| ensures r[i] != r[j] {
        if i < |p| <= j { assert r[j] in q && r[i] in p; }
      }
    }
  }

  lemma FitsLast(marked: set<nat>, p: seq<nat>, f: nat)
    requires f in marked
    ensures Fits(marked - {f}, p + [f]) <==> Fits(marked, p)
  {
    var m := marked - {f};
    FitsConcat(m, p, [f]);
    assert forall x :: x in [f] <==> x == f;
    assert f in [f];
  }

  // ---------- the search ----------

  // if_search and if_called of each function, and the calls made.
  datatype Progress = Progress(search: seq<nat>, called: seq<bool>, order: seq<nat>)

  ghost predicate ProgressOk(t: Table, c: Progress)
  {
    && |c.search| == |t| && |c.called| == |t|
    && (forall i :: 0 <= i < |t| ==> (c.called[i] <==> i in c.order)) && Ordered(t, c.order)
  }

  ghost function Marked(c: Progress, s: nat): set<nat> { set i | 0 <= i < |c.search| && c.search[i] == s }

  ghost function Unmarked(c: Progress, s: nat): set<nat> { set i | 0 <= i < |c.search| && c.search[i] != s }

  // Those called before search s.
  ghost function Before(c: Progress, s: nat): set<nat>
  {
    set i | 0 <= i < |c.search| && i in c.order && c.search[i] != s
  }

  // From a to c search s has marked `open` and the functions it has called, none of which
  // was marked before.
  ghost predicate Extends(a: Progress, c: Progress, s: nat, open: set<nat>)
  {
    && |c.search| == |a.search| && a.order <= c.order && Before(c, s) == Before(a, s)
    && Marked(c, s) == Marked(a, s) + open + Elements(c.order[|a.order|..])
    && (forall x :: x in c.order[|a.order|..] ==> x !in Marked(a, s) + open)
    && forall i :: 0 <= i < |c.search| ==> c.search[i] == s || c.search[i] == a.search[i]
  }

  // The call of f in search s, begun in state a, has dealt with k dependencies.
  ghost predicate Part(t: Table, rank: seq<nat>, f: nat, s: nat, a: Progress, c: Progress, k: nat)
  {
    && ProgressOk(t, a) && ProgressOk(t, c) && f < |t| && f !in Marked(a, s) && f !in c.order
    && Extends(a, c, s, {f}) && Met(t, c.order, f, k)
    && (Ranked(t, rank) ==> c.order == a.order + Below(t, rank, Before(a, s), f, k)
                            && Fits(Marked(a, s) + {f}, Below(t, rank, Before(a, s), f, k)))
  }

  // The call of f has returned.
  ghost predicate Done(t: Table, rank: seq<nat>, f: nat, s: nat, a: Progress, c: Progress)
  {
    && ProgressOk(t, a) && ProgressOk(t, c) && f < |t| && f !in Marked(a, s) && f in c.order && Extends(a, c, s, {})
    && (Ranked(t, rank) ==> c.order == a.order + Needed(t, rank, Before(a, s), f)
                            && Fits(Marked(a, s), Needed(t, rank, Before(a, s), f)))
  }

  // The state with f marked, in which its call begins.
  function Begun(a: Progress, f: nat, s: nat): Progress
    requires f < |a.search|
  {
    a.(search := a.search[f := s])
  }

  lemma PartStart(t: Table, rank: seq<nat>, f: nat, s: nat, a: Progress)
    requires ProgressOk(t, a) && f < |t| && f !in Marked(a, s) && f !in a.order
    ensures Part(t, rank, f, s, a, Begun(a, f, s), 0)
  {
    hide Ranked;
    var c := Begun(a, f, s);
    assert c.order[|a.order|..] == [];
    assert Marked(c, s) == Marked(a, s) + {f} + Elements([]);
    assert a.order + [] == a.order;
  }

  // The next dependency has been called before this search.
  lemma PartSkip(t: Table, rank: seq<nat>, f: nat, s: nat, a: Progress, c: Progress, k: nat)
    requires Part(t, rank, f, s, a, c, k) && k < |t[f].deps| && Dep(t, f, k).Some?
    requires Dep(t, f, k).value in c.order && c.search[Dep(t, f, k).value] != s
    ensures Part(t, rank, f, s, a, c, k + 1)
  {
    hide Fits, Ordered, Met, Ranked, Below, Marked;
    assert Dep(t, f, k).value in Before(c, s);
    MetNext(t, c.order, c.order, f, k);
    if Ranked(t, rank) { BelowSkip(t, rank, Before(a, s), f, k); }
  }

  lemma BelowSkip(t: Table, rank: seq<nat>, done: set<nat>, f: nat, k: nat)
    requires Ranked(t, rank) && f < |t| && k < |t[f].deps| && Dep(t, f, k).value in done
    ensures Below(t, rank, done, f, k + 1) == Below(t, rank, done, f, k)
  {
  }

  lemma ExtendsTrans(a: Progress, c: Progress, e: Progress, s: nat, open: set<nat>)
    requires Extends(a, c, s, open) && Extends(c, e, s, {})
    ensures Extends(a, e, s, open)
  {
    hide Marked, Before;
    var new1, new2 := c.order[|a.order|..], e.order[|c.order|..];
    assert e.order[|a.order|..] == new1 + new2;
    assert Elements(new1 + new2) == Elements(new1) + Elements(new2);
  }

  // The next dependency is called in this search.
  lemma PartCall(t: Table, rank: seq<nat>, f: nat, s: nat, a: Progress, c: Progress, k: nat, d: nat, e: Progress)
    requires Part(t, rank, f, s, a, c, k) && k < |t[f].deps| && Dep(t, f, k) == Some(d) && d !in c.order
    requires Done(t, rank, d, s, c, e)
    ensures Part(t, rank, f, s, a, e, k + 1)
  {
    hide ProgressOk, Fits, Ordered, Met, Ranked, Extends, Below, Needed, Before, Marked;
    ExtendsTrans(a, c, e, s, {f});
    NotCalledYet(a, c, e, f, s);
    MetNext(t, c.order, e.order, f, k);
    if Ranked(t, rank) { PartCallRanked(t, rank, f, s, a, c, k, d, e); }
  }

  lemma NotCalledYet(a: Progress, c: Progress, e: Progress, f: nat, s: nat)
    requires Extends(a, c, s, {f}) && Extends(c, e, s, {}) && f !in c.order
    ensures f !in e.order && c.order <= e.order
  {
    assert f in Marked(c, s);
    assert e.order == c.order + e.order[|c.order|..];
  }

  lemma MetNext(t: Table, order: seq<nat>, more: seq<nat>, f: nat, k: nat)
    requires Met(t, order, f, k) && order <= more && k < |t[f].deps| && Dep(t, f, k).Some? && Dep(t, f, k).value in more
    ensures Met(t, more, f, k + 1)
  {
    MetMore(t, order, more, f, k);
  }

  lemma BelowNext(t: Table, rank: seq<nat>, done: set<nat>, f: nat, k: nat, d: nat)
    requires Ranked(t, rank) && f < |t| && k < |t[f].deps| && Dep(t, f, k) == Some(d) && d !in done
    ensures Below(t, rank, done, f, k + 1) == Below(t, rank, done, f, k) + Needed(t, rank, done, d)
  {
  }

  lemma PartCallRanked(t: Table, rank: seq<nat>, f: nat, s: nat, a: Progress, c: Progress, k: nat, d: nat, e: Progress)
    requires Part(t, rank, f, s, a, c, k) && k < |t[f].deps| && Dep(t, f, k) == Some(d) && d !in c.order
    requires Done(t, rank, d, s, c, e)
    requires Ranked(t, rank)
    ensures var p := Below(t, rank, Before(a, s), f, k + 1); e.order == a.order + p && Fits(Marked(a, s) + {f}, p)
  {
    hide ProgressOk, Fits, Ordered, Met, Ranked, Below, Needed, Marked;
    var done := Before(a, s);
    var p, q := Below(t, rank, done, f, k), Needed(t, rank, done, d);
    assert d !in done;
    BelowNext(t, rank, done, f, k, d);
    assert c.order[|a.order|..] == p;
    FitsConcat(Marked(a, s) + {f}, p, q);
  }

  // All dependencies are dealt with, and f is called.
  lemma PartEnd(t: Table, rank: seq<nat>, f: nat, s: nat, a: Progress, c: Progress)
    requires f < |t| && Part(t, rank, f, s, a, c, |t[f].deps|)
    ensures f < |c.called| && Done(t, rank, f, s, a, c.(called := c.called[f := true], order := c.order + [f]))
  {
    hide ProgressOk, Extends, Ordered, Met, Ranked, Below, Fits, Marked, Before;
    EndOk(t, c, f);
    EndExtends(a, c, f, s);
    if Ranked(t, rank) {
      FitsLast(Marked(a, s) + {f}, Below(t, rank, Before(a, s), f, |t[f].deps|), f);
      assert Marked(a, s) + {f} - {f} == Marked(a, s);
    }
  }

  lemma EndOk(t: Table, c: Progress, f: nat)
    requires ProgressOk(t, c) && f < |t| && f !in c.order && Met(t, c.order, f, |t[f].deps|)
    ensures f < |c.called| && ProgressOk(t, c.(called := c.called[f := true], order := c.order + [f]))
  {
    hide Ordered, Met;
    OrderedSnoc(t, c.order, f);
  }

  lemma EndExtends(a: Progress, c: Progress, f: nat, s: nat)
    requires Extends(a, c, s, {f}) && f < |c.called| && f !in Marked(a, s)
    ensures Extends(a, c.(called := c.called[f := true], order := c.order + [f]), s, {})
  {
    var e := c.(called := c.called[f := true], order := c.order + [f]);
    var new1, new2 := c.order[|a.order|..], e.order[|a.order|..];
    assert new2 == new1 + [f];
    assert f in Marked(c, s);
    assert Before(e, s) == Before(c, s);
    assert Elements(new2) == Elements(new1) + {f};
    hide Before, Marked;
  }

  // ---------- where it panics ----------

  lemma {:induction false} FitsPrefix(t: Table, rank: seq<nat>, done: set<nat>, f: nat, k: nat, m: nat,
                                      marked: set<nat>)
    requires Ranked(t, rank) && f < |t| && k <= m <= |t[f].deps| && Fits(marked, Below(t, rank, done, f, m))
    ensures Fits(marked, Below(t, rank, done, f, k))
    decreases m
  {
    hide Fits;
    if k < m {
      var d := Dep(t, f, m - 1).value;
      FitsConcat(marked, Below(t, rank, done, f, m - 1), if d in done then [] else Needed(t, rank, done, d));
      FitsPrefix(t, rank, done, f, k, m - 1, marked);
    }
  }

  // What does not fit after k dependencies of f does not fit at all.
  lemma NoFit(t: Table, rank: seq<nat>, f: nat, s: nat, a: Progress, c: Progress, k: nat, d: nat)
    requires Part(t, rank, f, s, a, c, k) && k < |t[f].deps| && Dep(t, f, k) == Some(d) && Ranked(t, rank)
    requires d !in Before(a, s)
    requires !Fits(Marked(c, s), Needed(t, rank, Before(a, s), d))
    ensures !Fits(Marked(a, s), Needed(t, rank, Before(a, s), f))
  {
    hide ProgressOk, Ordered, Met, Ranked, Below, Fits, Marked, Before;
    var done, all := Before(a, s), |t[f].deps|;
    var p := Below(t, rank, done, f, k);
    assert c.order[|a.order|..] == p;
    FitsConcat(Marked(a, s) + {f}, p, Needed(t, rank, done, d));
    BelowNext(t, rank, done, f, k, d);
    if Fits(Marked(a, s) + {f}, Below(t, rank, done, f, all)) {
      FitsPrefix(t, rank, done, f, k + 1, all, Marked(a, s) + {f});
    }
    FitsLast(Marked(a, s) + {f}, Below(t, rank, done, f, all), f);
    assert f !in Marked(a, s) ==> Marked(a, s) + {f} - {f} == Marked(a, s);
  }

  // A dependency that is marked in this search does not fit.
  lemma MarkedNoFit(t: Table, rank: seq<nat>, f: nat, s: nat, a: Progress, c: Progress, k: nat, d: nat)
    requires Part(t, rank, f, s, a, c, k) && k < |t[f].deps| && Dep(t, f, k) == Some(d) && Ranked(t, rank)
    requires d in Marked(c, s)
    ensures !Fits(Marked(a, s), Needed(t, rank, Before(a, s), f))
  {
    hide ProgressOk, Ordered, Met, Ranked, Below;
    assert d !in Before(a, s);
    var p := Needed(t, rank, Before(a, s), d);
    assert p[|p| - 1] == d && d in p;
    NoFit(t, rank, f, s, a, c, k, d);
  }

  class Init {
    const t: Table
    const search: array<nat>
    const called: array<bool>
    var order: seq<nat>
    var count: nat

    ghost function Value(): Progress
      reads this, search, called
    {
      Progress(search[..], called[..], order)
    }

    constructor (t: Table)
      ensures ProgressOk(t, Value()) && this.t == t && order == [] && count == 0
      ensures search.Length == |t| && forall i :: 0 <= i < |t| ==> search[i] == 0
    {
      this.t, order, count := t, [], 0;
      search := new nat[|t|](_ => 0);
      called := new bool[|t|](_ => false);
    }

    // _init_call of f in search s, from state a in which f is not marked. It ends because
    // every call marks a function. Without circular dependencies it panics exactly if
    // something it needs comes up twice in the search.
    method Call(f: nat, s: nat, ghost rank: seq<nat>, ghost a: Progress) returns (panicked: bool)
      requires ProgressOk(t, a) && f < |t| && f !in Marked(a, s) && f !in a.order && Value() == Begun(a, f, s)
      modifies this`order, search, called
      ensures !panicked ==> Done(t, rank, f, s, a, Value())
      ensures panicked && Ranked(t, rank) ==> !Fits(Marked(a, s), Needed(t, rank, Before(a, s), f))
      decreases Unmarked(a, s)
    {
      hide ProgressOk, Fits, Ordered, Met, Ranked, Below, Needed, Extends, Done;
      PartStart(t, rank, f, s, a);
      var k := 0;
      while k < |t[f].deps|
        invariant 0 <= k <= |t[f].deps| && Part(t, rank, f, s, a, Value(), k)
      {
        ghost var c := Value();
        PartShape(t, rank, f, s, a, c, k);
        var dep := Find(t, t[f].deps[k]);
        if dep.None? {
          MissingUnranked(t, rank, f, k);
          return true;
        }
        var d := dep.value;
        if search[f] == search[d] {
          if Ranked(t, rank) { MarkedNoFit(t, rank, f, s, a, c, k, d); }
          return true;
        }
        if !called[d] {
          search[d] := search[f];
          assert Value() == Begun(c, d, s);
          panicked := Call(d, s, rank, c);
          if panicked {
            if Ranked(t, rank) {
              BeforeSame(t, rank, f, s, a, c, k, d);
              NoFit(t, rank, f, s, a, c, k, d);
            }
            return;
          }
          PartCall(t, rank, f, s, a, c, k, d, Value());
        } else {
          PartSkip(t, rank, f, s, a, c, k);
        }
        k := k + 1;
      }
      ghost var c := Value();
      PartShape(t, rank, f, s, a, c, k);
      PartEnd(t, rank, f, s, a, c);
      assert !called[f];
      called[f] := true;
      order := order + [f];
      assert Value() == c.(called := c.called[f := true], order := c.order + [f]);
      panicked := false;
    }

    // The calling loop of init_call_all.
    method CallAll(ghost rank: seq<nat>) returns (panicked: bool)
      requires ProgressOk(t, Value()) && order == [] && count == 0 && forall i :: 0 <= i < search.Length ==>
                 search[i] == 0
      modifies this, search, called
      ensures !panicked ==> Ordered(t, order) && forall f :: 0 <= f < |t| ==> f in order
      ensures Cyclic(t) ==> panicked
      ensures Ranked(t, rank) ==> Plan(t, rank, 0, []) == if panicked then None else Some(order)
    {
      hide Fits, Met, Below, Needed, Extends, Cyclic, Marked, Before, Ordered;
      var f := 0;
      while f < |t|
        invariant 0 <= f <= |t| && ProgressOk(t, Value()) && forall i :: 0 <= i < search.Length ==> search[i] <= count
        invariant forall g :: 0 <= g < f ==> g in order
        invariant Ranked(t, rank) ==> Plan(t, rank, 0, []) == Plan(t, rank, f, order)
      {
        if !called[f] {
          ghost var a := Value();
          count := count + 1;
          FreshSearch(t, a, count);
          search[f] := count;
          assert Value() == Begun(a, f, count);
          panicked := Call(f, count, rank, a);
          FitsNone(t, rank, a, count, f);
          if panicked {
            return;
          }
          DoneParts(t, rank, f, count, a, Value());
        }
        f := f + 1;
      }
      panicked := false;
      if Cyclic(t) { CyclicUnordered(t, order); }
    }
  }

  // All searches one after the other, by what they need.
  ghost function Plan(t: Table, rank: seq<nat>, f: nat, order: seq<nat>): Option<seq<nat>>
    requires Ranked(t, rank)
    decreases |t| - f
  {
    if f >= |t| then Some(order)
    else if f in order then Plan(t, rank, f + 1, order)
    else if NoDup(Needed(t, rank, Elements(order), f)) then
      Plan(t, rank, f + 1, order + Needed(t, rank, Elements(order), f))
    else None
  }

  // Functions without dependencies are called in the order of the table.
  lemma {:induction false} TableOrder(t: Table, rank: seq<nat>, f: nat)
    requires Ranked(t, rank) && f <= |t| && forall g :: 0 <= g < |t| ==> t[g].deps == []
    ensures Plan(t, rank, f, Upto(f)) == Some(Upto(|t|))
    decreases |t| - f
  {
    if f < |t| {
      assert Needed(t, rank, Elements(Upto(f)), f) == [f];
      assert Upto(f) + [f] == Upto(f + 1);
      TableOrder(t, rank, f + 1);
    }
  }

  function Upto(n: nat): (r: seq<nat>)
    ensures |r| == n && forall i :: 0 <= i < n ==> r[i] == i
  {
    seq(n, i => i)
  }

  // Dependencies that need nothing themselves are called in the order they are listed in, and
  // then the function.
  lemma {:induction false} ListedOrder(t: Table, rank: seq<nat>, done: set<nat>, f: nat, k: nat)
    requires Ranked(t, rank) && f < |t| && k <= |t[f].deps|
    requires forall j: nat :: j < k ==> Dep(t, f, j).value !in done && t[Dep(t, f, j).value].deps == []
    ensures |Below(t, rank, done, f, k)| == k
    ensures forall j: nat :: j < k ==> Below(t, rank, done, f, k)[j] == Dep(t, f, j).value
    ensures k == |t[f].deps| ==> Needed(t, rank, done, f)[k] == f
  {
    if k > 0 { ListedOrder(t, rank, done, f, k - 1); }
  }

  lemma FreshSearch(t: Table, a: Progress, s: nat)
    requires ProgressOk(t, a) && forall i :: 0 <= i < |a.search| ==> a.search[i] < s
    ensures Marked(a, s) == {} && Before(a, s) == Elements(a.order)
  {
  }

  lemma FitsNone(t: Table, rank: seq<nat>, a: Progress, s: nat, f: nat)
    requires ProgressOk(t, a) && Marked(a, s) == {} && Before(a, s) == Elements(a.order) && f < |t|
    ensures Ranked(t, rank) ==>
              (Fits(Marked(a, s), Needed(t, rank, Before(a, s), f)) <==> NoDup(Needed(t, rank, Elements(a.order), f)))
  {
  }

  lemma DoneParts(t: Table, rank: seq<nat>, f: nat, s: nat, a: Progress, c: Progress)
    requires Done(t, rank, f, s, a, c)
    ensures ProgressOk(t, c) && f in c.order && a.order <= c.order && |c.search| == |a.search|
    ensures forall i :: 0 <= i < |c.search| ==> c.search[i] == s || c.search[i] == a.search[i]
    ensures forall g :: g in a.order ==> g in c.order
    ensures Ranked(t, rank) ==> c.order == a.order + Needed(t, rank, Before(a, s), f)
                                && Fits(Marked(a, s), Needed(t, rank, Before(a, s), f))
  {
    hide Ordered, Fits, Ranked, Needed, Marked, Before;
  }

  lemma PartShape(t: Table, rank: seq<nat>, f: nat, s: nat, a: Progress, c: Progress, k: nat)
    requires Part(t, rank, f, s, a, c, k)
    ensures ProgressOk(t, c) && |c.search| == |t| == |c.called| && c.search[f] == s && !c.called[f] && |a.search| == |t|
    ensures forall d :: 0 <= d < |t| ==> (d in Marked(c, s) <==> c.search[d] == s) && (d in c.order <==> c.called[d])
    ensures forall d :: d in Marked(a, s) ==> d in Marked(c, s)
    ensures forall d :: 0 <= d < |t| && c.search[d] != s ==> Unmarked(c, s) < Unmarked(a, s)
  {
    hide Ordered, Met, Ranked, Fits, Below;
    assert f in Marked(c, s) && f in Unmarked(a, s);
  }

  lemma MissingUnranked(t: Table, rank: seq<nat>, f: nat, k: nat)
    requires f < |t| && k < |t[f].deps| && Find(t, t[f].deps[k]).None?
    ensures !Ranked(t, rank)
  {
    assert Dep(t, f, k).None?;
  }

  lemma BeforeSame(t: Table, rank: seq<nat>, f: nat, s: nat, a: Progress, c: Progress, k: nat, d: nat)
    requires Part(t, rank, f, s, a, c, k) && d !in c.order
    ensures Before(c, s) == Before(a, s) && d !in Before(a, s)
  {
  }

  // The first function needs the other two and the second needs the third.
  function Shared(): Table { [Function("a", ["b", "c"]), Function("b", ["c"]), Function("c", [])] }

  // Dependencies that are not circular can panic too: the third function comes up twice in
  // one search.
  lemma SharedPanics()
    ensures Ranked(Shared(), [2, 1, 0]) && !Cyclic(Shared()) && Plan(Shared(), [2, 1, 0], 0, []).None?
  {
    var t, rank := Shared(), [2, 1, 0];
    SharedDeps();
    hide Shared, Needed, Cyclic, Dep;
    RankedAcyclic(t, rank);
    SharedNeeded(t, rank);
    assert Elements([]) == {};
    var p := Needed(t, rank, {}, 0);
    assert p[0] == p[2];
  }

  lemma SharedDeps()
    ensures var t := Shared();
            && |t| == 3 && |t[0].deps| == 2 && |t[1].deps| == 1 && |t[2].deps| == 0
            && Dep(t, 0, 0) == Some(1) && Dep(t, 0, 1) == Some(2) && Dep(t, 1, 0) == Some(2) && Ranked(t, [2, 1, 0])
  {
    var t := Shared();
    assert t[1..] == [Function("b", ["c"]), Function("c", [])];
    assert t[1..][1..] == [Function("c", [])];
    assert Find(t[1..][1..], "c") == Some(0);
    assert Find(t[1..], "c") == Some(1) && Find(t[1..], "b") == Some(0);
    assert Dep(t, 0, 0) == Some(1) && Dep(t, 0, 1) == Some(2) && Dep(t, 1, 0) == Some(2);
  }

  lemma SharedNeeded(t: Table, rank: seq<nat>)
    requires |t| == 3 && |t[0].deps| == 2 && |t[1].deps| == 1 && |t[2].deps| == 0 && Ranked(t, rank)
    requires Dep(t, 0, 0) == Some(1) && Dep(t, 0, 1) == Some(2) && Dep(t, 1, 0) == Some(2)
    ensures Needed(t, rank, {}, 0) == [2, 1, 2, 0]
  {
    hide Dep, Ranked;
    assert Needed(t, rank, {}, 2) == [2];
    BelowNext(t, rank, {}, 1, 0, 2);
    assert Below(t, rank, {}, 1, 1) == [2];
    assert Needed(t, rank, {}, 1) == [2, 1];
    BelowNext(t, rank, {}, 0, 0, 1);
    assert Below(t, rank, {}, 0, 1) == [2, 1];
    BelowNext(t, rank, {}, 0, 1, 2);
    assert Below(t, rank, {}, 0, 2) == [2, 1, 2];
  }

  lemma RankedAcyclic(t: Table, rank: seq<nat>)
    requires Ranked(t, rank)
    ensures !Cyclic(t)
  {
    forall p | Path(t, p) ensures p[0] != p[|p| - 1] {
      RankFalls(t, rank, p);
    }
  }

  lemma {:induction false} RankFalls(t: Table, rank: seq<nat>, p: seq<nat>)
    requires Ranked(t, rank) && Path(t, p)
    ensures p[0] < |t| && p[|p| - 1] < |t| && rank[p[|p| - 1]] < rank[p[0]]
    decreases |p|
  {
    assert Needs(t, p[0], p[1]);
    if |p| > 2 { RankFalls(t, rank, p[1..]); }
  }

  // ---------- every table without cycles can be ranked ----------

  ghost predicate Complete(t: Table) { forall f: nat, k: nat :: f < |t| && k < |t[f].deps| ==> Dep(t, f, k).Some? }

  // The longest chain of at most k steps from f, by one of its first j dependencies.
  ghost function Over(t: Table, f: nat, k: nat, j: nat): nat
    decreases k, j
  {
    if k == 0 || j == 0 then 0 else
      var rest := Over(t, f, k, j - 1);
      var d := Dep(t, f, j - 1);
      if d.Some? && 1 + Over(t, d.value, k - 1, |t[d.value].deps|) > rest then
        1 + Over(t, d.value, k - 1, |t[d.value].deps|)
      else rest
  }

  ghost function Height(t: Table, f: nat, k: nat): nat { if f < |t| then Over(t, f, k, |t[f].deps|) else 0 }

  lemma {:induction false} OverAtLeast(t: Table, f: nat, k: nat, j: nat, i: nat, d: nat)
    requires k > 0 && i < j && Dep(t, f, i) == Some(d)
    ensures Over(t, f, k, j) >= 1 + Height(t, d, k - 1)
  {
    hide Dep;
    if i < j - 1 { OverAtLeast(t, f, k, j - 1, i, d); }
  }

  lemma {:induction false} OverBy(t: Table, f: nat, k: nat, j: nat) returns (i: nat, d: nat)
    requires Over(t, f, k, j) > 0
    ensures k > 0 && i < j && Dep(t, f, i) == Some(d) && Over(t, f, k, j) == 1 + Height(t, d, k - 1)
  {
    hide Dep;
    if Over(t, f, k, j) == Over(t, f, k, j - 1) {
      i, d := OverBy(t, f, k, j - 1);
    } else {
      i, d := j - 1, Dep(t, f, j - 1).value;
    }
  }

  // A longer bound gives a longer chain only if the chain is as long as the bound.
  lemma {:induction false} HeightGrows(t: Table, f: nat, k: nat)
    ensures Height(t, f, k + 1) > Height(t, f, k) ==> Height(t, f, k + 1) == k + 1
    decreases k
  {
    hide Dep, Over;
    if Height(t, f, k + 1) > Height(t, f, k) {
      var i, d := OverBy(t, f, k + 1, |t[f].deps|);
      if k == 0 {
        NoSteps(t, d);
      } else {
        OverAtLeast(t, f, k, |t[f].deps|, i, d);
        HeightGrows(t, d, k - 1);
      }
    }
  }

  lemma NoSteps(t: Table, f: nat)
    ensures Height(t, f, 0) == 0
  {
  }

  // Each function of p needs the next.
  ghost predicate Steps(t: Table, p: seq<nat>)
  {
    (forall i :: 0 <= i < |p| ==> p[i] < |t|) && forall i :: 0 <= i < |p| - 1 ==> Needs(t, p[i], p[i + 1])
  }

  lemma {:induction false} ChainOf(t: Table, f: nat, k: nat) returns (p: seq<nat>)
    requires f < |t|
    ensures |p| == Height(t, f, k) + 1 && p[0] == f && Steps(t, p)
    decreases k
  {
    hide Over;
    p := [f];
    if Height(t, f, k) > 0 {
      var i, d := OverBy(t, f, k, |t[f].deps|);
      var q := ChainOf(t, d, k - 1);
      p := [f] + q;
      assert Needs(t, f, d);
      forall i | 0 <= i < |p| - 1 ensures Needs(t, p[i], p[i + 1]) {
        assert p[i + 1] == q[i] && (i > 0 ==> p[i] == q[i - 1]);
      }
    }
  }

  lemma {:induction false} FewDistinct(p: seq<nat>, n: nat)
    requires NoDup(p) && forall x :: x in p ==> x < n
    ensures |p| <= n
    decreases n
  {
    assert |p| > 0 ==> p[0] in p;
    if n > 0 {
      var x: nat := n - 1;
      WithoutIs(p, x);
      FewDistinct(Without<nat>(p, x), x);
    }
  }

  // A chain through more functions than there are comes back to one of them.
  lemma LongChainCyclic(t: Table, p: seq<nat>)
    requires Steps(t, p) && |p| > |t|
    ensures Cyclic(t)
  {
    if NoDup(p) {
      FewDistinct(p, |t|);
    }
    var i, j :| 0 <= i < j < |p| && p[i] == p[j];
    var c := p[i..j + 1];
    forall m | 0 <= m < |c| - 1 ensures Needs(t, c[m], c[m + 1]) {
      assert c[m] == p[i + m] && c[m + 1] == p[i + m + 1];
    }
    assert Path(t, c) && c[0] == c[|c| - 1];
  }

  lemma RankBelow(t: Table, f: nat, k: nat)
    requires !Cyclic(t) && f < |t| && k < |t[f].deps| && Dep(t, f, k).Some?
    ensures Height(t, Dep(t, f, k).value, |t|) < Height(t, f, |t|)
  {
    hide Over, Cyclic;
    var d, n := Dep(t, f, k).value, |t|;
    OverAtLeast(t, f, n, |t[f].deps|, k, d);
    var p := ChainOf(t, d, n);
    if |p| > n { LongChainCyclic(t, p); }
    HeightGrows(t, d, n - 1);
  }

  // What CallAll says of ranked tables it says of all whose dependencies exist and are not
  // circular.
  lemma RankedIff(t: Table)
    ensures (exists rank :: Ranked(t, rank)) <==> Complete(t) && !Cyclic(t)
  {
    hide Cyclic, Dep, Height;
    if rank :| Ranked(t, rank) {
      RankedAcyclic(t, rank);
    }
    if Complete(t) && !Cyclic(t) {
      var rank := seq(|t|, f requires 0 <= f < |t| => Height(t, f, |t|));
      forall f: nat, k: nat | f < |t| && k < |t[f].deps| ensures Dep(t, f, k).Some?
          && rank[Dep(t, f, k).value] < rank[f] {
        RankBelow(t, f, k);
      }
      assert Ranked(t, rank);
    }
  }
}
