/**
 The cache of vnodes (kernel/fs/vnode.c), as a state machine over the places where vget and
 vput may block: reading a vnode in, waiting for one that is busy, waiting for a busy page
 while the last reference goes, and deleting. `active` counts the references that are
 neither those of resident pages nor that of a vput that is under way.

 A vnode whose last active reference goes and that has no links is purged: a walk over its
 pages frees each, and sleeps where a page is busy with the page already saved that comes
 after it. Others may free pages, and get the vnode again, while it sleeps. A failed
 assertion halts the kernel.
 */
module Vnodes {
  import opened Common
  import opened Lists

  type Tid = nat
  type Vid = nat
  type Pid = nat

  datatype Key = Key(fs: nat, vno: nat)

  // `pages` is mmo_respages from its head, and `cleaning` are the busy ones of them.
  datatype Vnode = Vnode(key: Key, busy: bool, refs: int, nres: int, active: nat, pages: seq<Pid>, cleaning: set<Pid>)

  // Where a thread is. A purge sleeps on page `cur` and has saved `next`; None is the end.
  datatype Place =
    | Elsewhere
    | Finding(key: Key)
    | Waiting(v: Vid, key: Key)
    | Reading(v: Vid)
    | Purging(v: Vid, cur: Pid, next: Option<Pid>)
    | Deleting(v: Vid)

  // `unused` is the next page frame: one that has been freed does not come back.
  datatype State = State(inuse: seq<Vid>, vnodes: map<Vid, Vnode>, threads: map<Tid, Place>, unused: Pid, halted: bool)

  // ---------- one vnode going away ----------

  // vput and the pframe_free calls it makes, on a vnode that nothing else touches.
  class Cached {
    var refs: int
    var nres: nat
    var busy: bool
    var freed: bool
    // How often the branch that frees all pages has been entered.
    ghost var purges: nat

    constructor (refs: int, nres: nat)
      requires nres < refs
      ensures this.refs == refs && this.nres == nres && !busy && !freed && purges == 0
    {
      this.refs, this.nres, busy, freed, purges := refs, nres, false, false, 0;
    }

    // vput. `linked` is what query_vnode answers.
    method Vput(linked: bool)
      requires nres < refs && !busy && !freed
      modifies this
      ensures var purge := old(nres) == old(refs) - 1 && !linked;
              && purges == old(purges) + (if purge then 1 else 0)
              && nres == (if purge then 0 else old(nres)) && refs == (if purge then 0 else old(refs) - 1)
              && (freed <==> refs == 0) && (busy <==> freed)
      decreases nres, 1
    {
      if nres == refs - 1 && !linked {
        ghost var n := purges;
        purges := purges + 1;
        while nres > 0
          invariant refs == nres + 1 && nres <= old(nres) && !busy && !freed && purges == n + 1
        {
          PframeFree(linked);
        }
        assert nres == 0 && refs == 1;
      }
      refs := refs - 1;
      if refs > 0 {
        return;
      }
      assert refs == 0 && nres == 0;
      busy := true;
      freed := true;
    }

    // pframe_free, as far as it concerns the vnode. Where a purge frees a page the reference
    // it drops does not start another purge.
    method PframeFree(linked: bool)
      requires nres > 0 && nres <= refs && !busy && !freed
      modifies this
      ensures var n := old(nres) - 1; var purge := n == old(refs) - 1 && !linked;
              && purges == old(purges) + (if purge then 1 else 0)
              && nres == (if purge then 0 else n) && refs == (if purge then 0 else old(refs) - 1)
              && (freed <==> refs == 0) && (busy <==> freed)
      decreases nres, 0
    {
      nres := nres - 1;
      Vput(linked);
    }
  }

  // ---------- the events ----------

  // The vnode of a key, if it is in core.
  function Lookup(l: seq<Vid>, vnodes: map<Vid, Vnode>, key: Key): Option<Vid>
  {
    if l == [] then None
    else if l[0] in vnodes && vnodes[l[0]].key == key then Some(l[0])
    else Lookup(l[1..], vnodes, key)
  }

  datatype Event =
    | Start(t: Tid, key: Key)
    | Find(t: Tid, room: Option<Vid>)
    | ReadDone(t: Tid)
    | Ref(v: Vid)
    | Put(t: Tid, v: Vid, linked: bool)
    | PageIn(v: Vid)
    | CleanStart(v: Vid, p: Pid)
    | CleanDone(v: Vid, p: Pid)
    | PageOut(t: Tid, v: Vid, p: Pid, linked: bool)
    | Resume(t: Tid)
    | DeleteDone(t: Tid)

  ghost predicate Held(s: State, v: Vid) { v in s.vnodes && s.vnodes[v].active > 0 && !s.vnodes[v].busy }

  ghost predicate Enabled(s: State, e: Event)
  {
    && !s.halted
    && match e
       case Start(t, _) => t in s.threads && s.threads[t] == Elsewhere
       case Find(t, room) => t in s.threads && s.threads[t].Finding? && (room.Some? ==> room.value !in s.vnodes)
       case ReadDone(t) => t in s.threads && s.threads[t].Reading?
       case Ref(v) => Held(s, v)
       case Put(t, v, _) => t in s.threads && s.threads[t] == Elsewhere && Held(s, v)
       case PageIn(v) => Held(s, v)
       case CleanStart(v, p) => v in s.vnodes && p in s.vnodes[v].pages && p !in s.vnodes[v].cleaning
       case CleanDone(v, p) => v in s.vnodes && p in s.vnodes[v].cleaning
       case PageOut(t, v, p, _) =>
         && t in s.threads && s.threads[t] == Elsewhere && v in s.vnodes && !s.vnodes[v].busy
         && p in s.vnodes[v].pages && p !in s.vnodes[v].cleaning
       case Resume(t) =>
         && t in s.threads && s.threads[t].Purging? && s.threads[t].v in s.vnodes
         && s.threads[t].cur !in s.vnodes[s.threads[t].v].cleaning
       case DeleteDone(t) => t in s.threads && s.threads[t].Deleting?
  }

  function At(s: State, t: Tid, p: Place): State { s.(threads := s.threads[t := p]) }

  function Set(s: State, v: Vid, x: Vnode): State { s.(vnodes := s.vnodes[v := x]) }

  // A failed assertion.
  function Halt(s: State): State { s.(halted := true) }

  // The scan of vget from `find` on: the vnode is returned, waited for, or begun.
  function Found(s: State, t: Tid, key: Key, room: Option<Vid>): State
  {
    match Lookup(s.inuse, s.vnodes, key)
    case Some(v) =>
      if v !in s.vnodes then s
      else if s.vnodes[v].busy then At(s, t, Waiting(v, key))
      else At(Set(s, v, s.vnodes[v].(refs := s.vnodes[v].refs + 1, active := s.vnodes[v].active + 1)), t, Elsewhere)
    case None =>
      if room.None? then s
      else At(Set(s, room.value, NewVnode(key)).(inuse := [room.value] + s.inuse), t, Reading(room.value))
  }

  function NewVnode(key: Key): Vnode { Vnode(key, true, 0, 0, 0, [], {}) }

  // The end of vput: one reference goes, and with the last one the vnode.
  function Dropped(s: State, t: Tid, v: Vid, x: Vnode): State
  {
    if x.refs - 1 > 0 then At(Set(s, v, x.(refs := x.refs - 1)), t, Elsewhere)
    else At(Set(s, v, x.(refs := x.refs - 1, busy := true)), t, Deleting(v))
  }

  // The turns of a purge from place i of the list on, up to a busy page: each frees a page,
  // and with it a reference.
  function FreeFrom(x: Vnode, i: nat): Vnode
    requires i <= |x.pages|
    decreases |x.pages|
  {
    if i == |x.pages| || x.pages[i] in x.cleaning then x
    else FreeFrom(x.(pages := x.pages[..i] + x.pages[i + 1..], nres := x.nres - 1, refs := x.refs - 1), i)
  }

  // The purge goes on at place i: it sleeps at the next busy page, or comes to its assertions
  // and the end of vput.
  function Walked(s: State, t: Tid, v: Vid, x: Vnode, i: nat): State
    requires i <= |x.pages|
  {
    var y := FreeFrom(x, i);
    if i < |y.pages| then At(Set(s, v, y), t,
                             Purging(v, y.pages[i], if i + 1 < |y.pages| then Some(y.pages[i + 1]) else None))
    else if y.nres == 0 && y.refs == 1 then Dropped(s, t, v, y)
    else Halt(s)
  }

  // vput of a vnode whose fields are x.
  function Vput(s: State, t: Tid, v: Vid, x: Vnode, linked: bool): State
  {
    if x.nres == x.refs - 1 && !linked then Walked(s, t, v, x, 0) else Dropped(s, t, v, x)
  }

  // The place of a page in the list, or the end.
  function IndexOf(l: seq<Pid>, p: Pid): (i: nat)
    ensures i <= |l|
  {
    if l == [] || l[0] == p then 0 else 1 + IndexOf(l[1..], p)
  }

  // The page that a purge waits for, or the one it has saved, has been freed.
  predicate Gone(x: Vnode, cur: Pid, next: Option<Pid>) { cur !in x.pages || (next.Some? && next.value !in x.pages) }

  // The purge wakes: pframe_free fails its assertion on a page that is gone; else the page
  // is freed, and the walk goes on at the one saved.
  function Resumed(s: State, t: Tid, v: Vid, x: Vnode, cur: Pid, next: Option<Pid>): State
  {
    if Gone(x, cur, next) then Halt(s) else
      var y := x.(pages := Without(x.pages, cur), nres := x.nres - 1, refs := x.refs - 1);
      Walked(s, t, v, y, if next.None? then |y.pages| else IndexOf(y.pages, next.value))
  }

  // sched_broadcast_on of the vnode's queue
  function Woken(threads: map<Tid, Place>, v: Vid): map<Tid, Place>
  {
    map t | t in threads :: if threads[t].Waiting? && threads[t].v == v then Finding(threads[t].key) else threads[t]
  }

  ghost function Next(s: State, e: Event): State
    requires Enabled(s, e)
  {
    match e
    case Start(t, key) => At(s, t, Finding(key))
    case Find(t, room) => Found(s, t, s.threads[t].key, room)
    case ReadDone(t) =>
      var v := s.threads[t].v;
      if v !in s.vnodes then s else At(Set(s, v, s.vnodes[v].(busy := false, refs := 1, active := 1)), t, Elsewhere)
    case Ref(v) => Set(s, v, s.vnodes[v].(refs := s.vnodes[v].refs + 1, active := s.vnodes[v].active + 1))
    case Put(t, v, linked) => Vput(s, t, v, s.vnodes[v].(active := s.vnodes[v].active - 1), linked)
    case PageIn(v) =>
      var x := s.vnodes[v];
      Set(s, v, x.(nres := x.nres + 1, refs := x.refs + 1, pages := [s.unused] + x.pages)).(unused := s.unused + 1)
    case CleanStart(v, p) => Set(s, v, s.vnodes[v].(cleaning := s.vnodes[v].cleaning + {p}))
    case CleanDone(v, p) => Set(s, v, s.vnodes[v].(cleaning := s.vnodes[v].cleaning - {p}))
    case PageOut(t, v, p, linked) =>
      var x := s.vnodes[v]; Vput(s, t, v, x.(nres := x.nres - 1, pages := Without(x.pages, p)), linked)
    case Resume(t) =>
      var p := s.threads[t]; Resumed(s, t, p.v, s.vnodes[p.v], p.cur, p.next)
    case DeleteDone(t) =>
      var v := s.threads[t].v;
      s.(inuse := Without(s.inuse, v), vnodes := s.vnodes - {v}, threads := Woken(s.threads, v)[t := Elsewhere])
  }

  // ---------- the invariant ----------

  // At most one vnode in core per key.
  ghost predicate OnePerKey(s: State)
  {
    && NoDup(s.inuse) && (forall v :: v in s.inuse <==> v in s.vnodes)
    && forall v, w :: v in s.vnodes && w in s.vnodes && s.vnodes[v].key == s.vnodes[w].key ==> v == w
  }

  // A vnode that is being read in, purged or deleted has exactly one thread at it.
  ghost predicate Owns(p: Place, v: Vid) { (p.Reading? || p.Purging? || p.Deleting?) && p.v == v }

  ghost predicate Owned(s: State, t: Tid, v: Vid) { t in s.threads && Owns(s.threads[t], v) }

  ghost predicate PagesOk(x: Vnode, unused: Pid)
  {
    && NoDup(x.pages) && x.nres == |x.pages| && (forall p :: p in x.pages ==> p < unused)
    && forall p :: p in x.cleaning ==> p in x.pages
  }

  ghost predicate VnodeOk(s: State, v: Vid)
    requires v in s.vnodes
  {
    var x := s.vnodes[v];
    && PagesOk(x, s.unused)
    && (forall t, u :: Owned(s, t, v) && Owned(s, u, v) ==> t == u)
    && (forall t :: Owned(s, t, v) ==> PlaceOk(s.threads[t], x, s.unused))
    && (x.busy ==> exists t :: Owned(s, t, v))
    && ((forall t :: !Owned(s, t, v)) ==> Idle(x))
  }

  ghost predicate Idle(x: Vnode) { !x.busy && x.refs == x.nres + x.active && x.refs > 0 }

  // The counts of a vnode by where its thread is. A purge has one reference of its own, and
  // what it has saved comes right after what it waits for, if both are there.
  ghost predicate PlaceOk(p: Place, x: Vnode, unused: Pid)
  {
    if p.Purging? then
      && !x.busy && x.refs == x.nres + x.active + 1 && p.cur < unused && (p.next.Some? ==> p.next.value < unused)
      && (Gone(x, p.cur, p.next) || Follows(x.pages, p.cur, p.next))
    else x.busy && x.refs == 0 && x.nres == 0 && x.active == 0
  }

  ghost predicate Follows(l: seq<Pid>, cur: Pid, next: Option<Pid>)
  {
    IndexOf(l, cur) + 1 == if next.None? then |l| else IndexOf(l, next.value)
  }

  ghost predicate Inv(s: State)
  {
    && OnePerKey(s) && (forall v :: v in s.vnodes ==> VnodeOk(s, v))
    && (forall t :: t in s.threads && Owns(s.threads[t], Vof(s.threads[t])) ==> Vof(s.threads[t]) in s.vnodes)
    && (forall t :: t in s.threads && s.threads[t].Waiting? ==>
          s.threads[t].v in s.vnodes && s.vnodes[s.threads[t].v].key == s.threads[t].key)
  }

  function Vof(p: Place): Vid { if p.Reading? || p.Purging? || p.Deleting? then p.v else 0 }

  // ---------- lists of pages ----------

  lemma {:induction false} IndexIs(l: seq<Pid>, p: Pid)
    ensures if p in l then IndexOf(l, p) < |l| && l[IndexOf(l, p)] == p else IndexOf(l, p) == |l|
  {
    if l != [] && l[0] != p {
      assert p in l <==> p in l[1..];
      IndexIs(l[1..], p);
    }
  }

  lemma {:induction false} IndexAt(l: seq<Pid>, i: nat)
    requires NoDup(l) && i < |l|
    ensures IndexOf(l, l[i]) == i
  {
    if i > 0 {
      assert l[0] != l[i] && l[1..][i - 1] == l[i];
      IndexAt(l[1..], i - 1);
    }
  }

  lemma {:induction false} WithoutIndex(l: seq<Pid>, q: Pid, p: Pid)
    requires NoDup(l) && q in l && p in l && p != q
    ensures IndexOf(Without(l, q), p) == if IndexOf(l, q) < IndexOf(l, p) then IndexOf(l, p) - 1 else IndexOf(l, p)
  {
    assert q in l[1..] <==> q != l[0];
    assert p in l[1..] <==> p != l[0];
    if l[0] != q && l[0] != p {
      WithoutIndex(l[1..], q, p);
    }
  }

  // Freeing another page leaves the two next to each other.
  lemma FollowsWithout(l: seq<Pid>, q: Pid, cur: Pid, next: Option<Pid>)
    requires NoDup(l) && q in l && cur in l && q != cur && Follows(l, cur, next)
    requires next.Some? ==> next.value in l && next.value != q
    ensures Follows(Without(l, q), cur, next)
  {
    WithoutIs(l, q);
    IndexIs(l, q);
    IndexIs(l, cur);
    WithoutIndex(l, q, cur);
    if next.Some? {
      IndexIs(l, next.value);
      WithoutIndex(l, q, next.value);
    }
  }

  // What a walk from place i on does to a vnode.
  lemma {:induction false} FreeFromIs(x: Vnode, i: nat)
    requires i <= |x.pages|
    ensures var y := FreeFrom(x, i);
            && i <= |y.pages| <= |x.pages| && y.pages[..i] == x.pages[..i]
            && y == x.(pages := y.pages, nres := x.nres - (|x.pages| - |y.pages|),
                       refs := x.refs - (|x.pages| - |y.pages|))
            && (i < |y.pages| ==> y.pages[i] in x.cleaning)
    decreases |x.pages|
  {
    if i < |x.pages| && x.pages[i] !in x.cleaning {
      var l := x.pages[..i] + x.pages[i + 1..];
      assert l[..i] == x.pages[..i];
      FreeFromIs(x.(pages := l, nres := x.nres - 1, refs := x.refs - 1), i);
    }
  }

  lemma {:induction false} FreeFromMembers(x: Vnode, i: nat)
    requires i <= |x.pages|
    ensures var y := FreeFrom(x, i);
            && (forall p :: p in y.pages ==> p in x.pages)
               && (forall p :: p in x.pages && p in x.cleaning ==> p in y.pages)
            && (NoDup(x.pages) ==> NoDup(y.pages))
    decreases |x.pages|
  {
    hide NoDup;
    if i < |x.pages| && x.pages[i] !in x.cleaning {
      var l := x.pages[..i] + x.pages[i + 1..];
      DropAt(x.pages, i);
      FreeFromMembers(x.(pages := l, nres := x.nres - 1, refs := x.refs - 1), i);
    }
  }

  lemma DropAt(l: seq<Pid>, i: nat)
    requires i < |l|
    ensures var r := l[..i] + l[i + 1..];
            && (forall p :: p in r ==> p in l) && (forall p :: p in l && p != l[i] ==> p in r)
               && (NoDup(l) ==> NoDup(r))
  {
    assert l == l[..i] + [l[i]] + l[i + 1..];
  }

  lemma WalkPages(x: Vnode, i: nat, unused: Pid)
    requires i <= |x.pages| && PagesOk(x, unused)
    ensures PagesOk(FreeFrom(x, i), unused)
  {
    hide FreeFrom;
    FreeFromIs(x, i);
    FreeFromMembers(x, i);
  }

  // ---------- every event keeps it ----------

  // Nothing about vnode w has changed.
  lemma VnodeFrame(s: State, r: State, w: Vid)
    requires w in s.vnodes && w in r.vnodes && r.vnodes[w] == s.vnodes[w] && VnodeOk(s, w) && s.unused <= r.unused
    requires forall t :: Owned(r, t, w) <==> Owned(s, t, w)
    requires forall t :: Owned(r, t, w) ==> r.threads[t] == s.threads[t]
    ensures VnodeOk(r, w)
  {
    hide Follows, Gone;
    if t :| Owned(s, t, w) { assert Owned(r, t, w); }
  }

  // Thread t goes to place p and vnode v gets the fields x; p and where t was concern no
  // other vnode.
  lemma StepKeeps(s: State, t: Tid, p: Place, v: Vid, x: Vnode)
    requires Inv(s) && t in s.threads && v in s.vnodes && x.key == s.vnodes[v].key
    requires forall w :: w != v ==> !Owns(p, w) && !Owns(s.threads[t], w)
    requires p.Waiting? ==> p.v in s.vnodes && s.vnodes[p.v].key == p.key
    requires VnodeOk(At(Set(s, v, x), t, p), v)
    ensures Inv(At(Set(s, v, x), t, p))
  {
    hide VnodeOk;
    var r := At(Set(s, v, x), t, p);
    forall w | w in r.vnodes ensures VnodeOk(r, w) {
      if w != v { VnodeFrame(s, r, w); }
    }
  }

  // The only thread at v, or none, moves to place p: what v's counts have to be.
  lemma AloneOk(s: State, t: Tid, p: Place, v: Vid, x: Vnode)
    requires v in s.vnodes && t in s.threads && PagesOk(x, s.unused) && forall u :: Owned(s, u, v) ==> u == t
    requires if Owns(p, v) then PlaceOk(p, x, s.unused) else Idle(x)
    ensures VnodeOk(At(Set(s, v, x), t, p), v)
  {
    hide PagesOk, PlaceOk;
    var r := At(Set(s, v, x), t, p);
    forall u | Owned(r, u, v) ensures u == t {
      assert u != t ==> Owned(s, u, v);
    }
    assert Owned(r, t, v) <==> Owns(p, v);
  }

  // A vnode that is not busy is purged by one thread, or in nobody's hands.
  lemma Counts(s: State, v: Vid)
    requires Inv(s) && v in s.vnodes && !s.vnodes[v].busy
    ensures PagesOk(s.vnodes[v], s.unused)
    ensures (forall u :: !Owned(s, u, v)) ==> Idle(s.vnodes[v])
    ensures forall u :: Owned(s, u, v) ==> s.threads[u].Purging? && PlaceOk(s.threads[u], s.vnodes[v], s.unused)
    ensures forall u, w :: Owned(s, u, v) && Owned(s, w, v) ==> u == w
  {
    assert VnodeOk(s, v);
  }

  lemma OwnerIs(s: State, t: Tid, v: Vid)
    requires Inv(s) && Owned(s, t, v)
    ensures v in s.vnodes && (forall u :: Owned(s, u, v) ==> u == t)
    ensures PlaceOk(s.threads[t], s.vnodes[v], s.unused) && PagesOk(s.vnodes[v], s.unused)
  {
    assert Vof(s.threads[t]) == v;
    assert VnodeOk(s, v);
  }

  lemma {:induction false} LookupIs(l: seq<Vid>, vnodes: map<Vid, Vnode>, key: Key)
    ensures var r := Lookup(l, vnodes, key);
            && (r.Some? ==> r.value in l && r.value in vnodes && vnodes[r.value].key == key)
            && (r.None? ==> forall v :: v in l && v in vnodes ==> vnodes[v].key != key)
  {
    if l != [] { LookupIs(l[1..], vnodes, key); }
  }

  lemma FindKeeps(s: State, t: Tid, room: Option<Vid>)
    requires Inv(s) && Enabled(s, Find(t, room))
    ensures Inv(Found(s, t, s.threads[t].key, room))
  {
    hide Inv;
    var key := s.threads[t].key;
    LookupIs(s.inuse, s.vnodes, key);
    match Lookup(s.inuse, s.vnodes, key)
    case Some(v) =>
      var x := s.vnodes[v];
      if x.busy {
        WaitKeeps(s, t, v, key);
      } else {
        RefKeeps(s, v);
        LeaveKeeps(Set(s, v, x.(refs := x.refs + 1, active := x.active + 1)), t, Elsewhere);
      }
    case None =>
      if room.Some? { NewKeeps(s, t, key, room.value); }
  }

  // A thread that is at no vnode goes to another such place.
  lemma LeaveKeeps(s: State, t: Tid, p: Place)
    requires Inv(s) && t in s.threads && !Owns(s.threads[t], Vof(s.threads[t])) && (p == Elsewhere || p.Finding?)
    ensures Inv(At(s, t, p))
  {
    hide VnodeOk;
    var r := At(s, t, p);
    forall w | w in r.vnodes ensures VnodeOk(r, w) {
      VnodeFrame(s, r, w);
    }
  }

  lemma WaitKeeps(s: State, t: Tid, v: Vid, key: Key)
    requires Inv(s) && t in s.threads && s.threads[t].Finding? && v in s.vnodes && s.vnodes[v].key == key
    ensures Inv(At(s, t, Waiting(v, key)))
  {
    hide VnodeOk;
    var r := At(s, t, Waiting(v, key));
    forall w | w in r.vnodes ensures VnodeOk(r, w) {
      VnodeFrame(s, r, w);
    }
  }

  lemma NewKeeps(s: State, t: Tid, key: Key, v: Vid)
    requires Inv(s) && t in s.threads && s.threads[t].Finding? && v !in s.vnodes
    requires forall w :: w in s.inuse && w in s.vnodes ==> s.vnodes[w].key != key
    ensures Inv(At(Set(s, v, NewVnode(key)).(inuse := [v] + s.inuse), t, Reading(v)))
  {
    hide VnodeOk, OnePerKey;
    var r := At(Set(s, v, NewVnode(key)).(inuse := [v] + s.inuse), t, Reading(v));
    NewKey(s, r, key, v);
    forall w | w in r.vnodes ensures VnodeOk(r, w) {
      if w != v { VnodeFrame(s, r, w); } else { NewOk(s, r, t, key, v); }
    }
  }

  lemma NewKey(s: State, r: State, key: Key, v: Vid)
    requires OnePerKey(s) && v !in s.vnodes && forall w :: w in s.inuse && w in s.vnodes ==> s.vnodes[w].key != key
    requires r.vnodes == s.vnodes[v := NewVnode(key)] && r.inuse == [v] + s.inuse
    ensures OnePerKey(r)
  {
    assert forall w :: w in r.inuse <==> w == v || w in s.inuse;
  }

  lemma NewOk(s: State, r: State, t: Tid, key: Key, v: Vid)
    requires Inv(s) && v !in s.vnodes && t in s.threads && r.threads == s.threads[t := Reading(v)]
    requires v in r.vnodes && r.vnodes[v] == NewVnode(key)
    ensures VnodeOk(r, v)
  {
    forall u | Owned(r, u, v) ensures u == t {
      assert u != t ==> Vof(s.threads[u]) == v;
    }
    assert Owned(r, t, v);
  }

  lemma ReadKeeps(s: State, t: Tid)
    requires Inv(s) && Enabled(s, ReadDone(t))
    ensures Inv(Next(s, ReadDone(t)))
  {
    hide Inv, VnodeOk;
    var v := s.threads[t].v;
    assert Owned(s, t, v);
    OwnerIs(s, t, v);
    var x := s.vnodes[v].(busy := false, refs := 1, active := 1);
    AloneOk(s, t, Elsewhere, v, x);
    StepKeeps(s, t, Elsewhere, v, x);
  }

  // A walk of the thread that purges v, or begins to.
  lemma WalkKeeps(s: State, t: Tid, v: Vid, x: Vnode, i: nat)
    requires Inv(s) && t in s.threads && v in s.vnodes && x.key == s.vnodes[v].key && !x.busy && i <= |x.pages|
    requires PagesOk(x, s.unused) && x.refs == x.nres + x.active + 1
    requires (forall u :: Owned(s, u, v) ==> u == t) && forall w :: w != v ==> !Owns(s.threads[t], w)
    ensures Inv(Walked(s, t, v, x, i))
  {
    hide Inv, VnodeOk, FreeFrom, Follows;
    var y := FreeFrom(x, i);
    FreeFromIs(x, i);
    WalkPages(x, i, s.unused);
    if i < |y.pages| {
      var p := Purging(v, y.pages[i], if i + 1 < |y.pages| then Some(y.pages[i + 1]) else None);
      SavedFollows(y.pages, i);
      assert y.pages[i] in y.pages && (i + 1 < |y.pages| ==> y.pages[i + 1] in y.pages);
      AloneOk(s, t, p, v, y);
      StepKeeps(s, t, p, v, y);
    } else if y.nres == 0 && y.refs == 1 {
      DropKeeps(s, t, v, y);
    } else {
      HaltKeeps(s);
    }
  }

  lemma SavedFollows(l: seq<Pid>, i: nat)
    requires NoDup(l) && i < |l|
    ensures Follows(l, l[i], if i + 1 < |l| then Some(l[i + 1]) else None)
  {
    IndexAt(l, i);
    if i + 1 < |l| { IndexAt(l, i + 1); }
  }

  lemma HaltKeeps(s: State)
    requires Inv(s)
    ensures Inv(Halt(s))
  {
    hide VnodeOk;
    forall w | w in s.vnodes ensures VnodeOk(Halt(s), w) {
      VnodeFrame(s, Halt(s), w);
    }
  }

  lemma DropKeeps(s: State, t: Tid, v: Vid, x: Vnode)
    requires Inv(s) && t in s.threads && v in s.vnodes && x.key == s.vnodes[v].key && !x.busy
    requires x.refs == x.nres + x.active + 1 && PagesOk(x, s.unused)
    requires (forall u :: Owned(s, u, v) ==> u == t) && forall w :: w != v ==> !Owns(s.threads[t], w)
    ensures Inv(Dropped(s, t, v, x))
  {
    hide Inv, VnodeOk;
    if x.refs - 1 > 0 {
      AloneOk(s, t, Elsewhere, v, x.(refs := x.refs - 1));
      StepKeeps(s, t, Elsewhere, v, x.(refs := x.refs - 1));
    } else {
      AloneOk(s, t, Deleting(v), v, x.(refs := x.refs - 1, busy := true));
      StepKeeps(s, t, Deleting(v), v, x.(refs := x.refs - 1, busy := true));
    }
  }

  // Only the fields of v change.
  lemma SetKeeps(s: State, v: Vid, x: Vnode)
    requires Inv(s) && v in s.vnodes && x.key == s.vnodes[v].key && !x.busy && !s.vnodes[v].busy && PagesOk(x, s.unused)
    requires (forall u :: !Owned(s, u, v)) ==> Idle(x)
    requires forall u :: Owned(s, u, v) ==> PlaceOk(s.threads[u], x, s.unused)
    ensures Inv(Set(s, v, x))
  {
    hide PlaceOk, VnodeOk;
    var r := Set(s, v, x);
    forall w | w in r.vnodes ensures VnodeOk(r, w) {
      if w != v { VnodeFrame(s, r, w); } else { SetOk(s, v, x); }
    }
  }

  lemma SetOk(s: State, v: Vid, x: Vnode)
    requires v in s.vnodes && VnodeOk(s, v) && !x.busy && PagesOk(x, s.unused)
    requires (forall u :: !Owned(s, u, v)) ==> Idle(x)
    requires forall u :: Owned(s, u, v) ==> PlaceOk(s.threads[u], x, s.unused)
    ensures VnodeOk(Set(s, v, x), v)
  {
    hide PlaceOk, PagesOk;
    var r := Set(s, v, x);
    assert forall u :: Owned(r, u, v) <==> Owned(s, u, v);
  }

  lemma RefKeeps(s: State, v: Vid)
    requires Inv(s) && v in s.vnodes && !s.vnodes[v].busy
    ensures Inv(Set(s, v, s.vnodes[v].(refs := s.vnodes[v].refs + 1, active := s.vnodes[v].active + 1)))
  {
    hide Inv, VnodeOk, Follows;
    Counts(s, v);
    SetKeeps(s, v, s.vnodes[v].(refs := s.vnodes[v].refs + 1, active := s.vnodes[v].active + 1));
  }

  // vput, by a thread that is at no vnode, of an active reference or of a page's.
  lemma VputKeeps(s: State, t: Tid, v: Vid, x: Vnode, linked: bool)
    requires Inv(s) && t in s.threads && s.threads[t] == Elsewhere && v in s.vnodes && x.key == s.vnodes[v].key
    requires !x.busy && !s.vnodes[v].busy && PagesOk(x, s.unused)
    requires (forall u :: !Owned(s, u, v)) ==> x.refs == x.nres + x.active + 1
    requires forall u :: Owned(s, u, v) ==>
               PlaceOk(s.threads[u], x.(refs := x.refs - 1), s.unused) && s.threads[u].Purging?
    ensures Inv(Vput(s, t, v, x, linked))
  {
    hide Inv, VnodeOk, FreeFrom, Follows, Gone;
    if u :| Owned(s, u, v) {
      // A purge is going on, with a reference of its own.
      Counts(s, v);
      assert Vput(s, t, v, x, linked) == At(Set(s, v, x.(refs := x.refs - 1)), t, Elsewhere);
      SetKeeps(s, v, x.(refs := x.refs - 1));
      SamePlace(Set(s, v, x.(refs := x.refs - 1)), t);
    } else if x.nres == x.refs - 1 && !linked {
      WalkKeeps(s, t, v, x, 0);
    } else {
      DropKeeps(s, t, v, x);
    }
  }

  lemma SamePlace(s: State, t: Tid)
    requires t in s.threads && s.threads[t] == Elsewhere
    ensures At(s, t, Elsewhere) == s
  {
    assert s.threads[t := Elsewhere] == s.threads;
  }

  lemma PutKeeps(s: State, t: Tid, v: Vid, linked: bool)
    requires Inv(s) && Enabled(s, Put(t, v, linked))
    ensures Inv(Next(s, Put(t, v, linked)))
  {
    hide Inv, Follows, FreeFrom;
    Counts(s, v);
    VputKeeps(s, t, v, s.vnodes[v].(active := s.vnodes[v].active - 1), linked);
  }

  lemma PageOutKeeps(s: State, t: Tid, v: Vid, p: Pid, linked: bool)
    requires Inv(s) && Enabled(s, PageOut(t, v, p, linked))
    ensures Inv(Next(s, PageOut(t, v, p, linked)))
  {
    hide Inv, FreeFrom, Follows;
    Counts(s, v);
    var x := s.vnodes[v];
    var y := x.(nres := x.nres - 1, pages := Without(x.pages, p));
    WithoutIs(x.pages, p);
    forall u | Owned(s, u, v) ensures PlaceOk(s.threads[u], y.(refs := y.refs - 1), s.unused) {
      OtherPage(s.threads[u], x, p, s.unused);
    }
    VputKeeps(s, t, v, y, linked);
  }

  // A purge and a page that another thread frees.
  lemma OtherPage(q: Place, x: Vnode, p: Pid, unused: Pid)
    requires q.Purging? && PlaceOk(q, x, unused) && PagesOk(x, unused) && p in x.pages
    ensures PlaceOk(q, x.(nres := x.nres - 1, pages := Without(x.pages, p), refs := x.refs - 1), unused)
  {
    hide Follows;
    WithoutIs(x.pages, p);
    var y := x.(nres := x.nres - 1, pages := Without(x.pages, p), refs := x.refs - 1);
    if !Gone(y, q.cur, q.next) {
      FollowsWithout(x.pages, p, q.cur, q.next);
    }
  }

  lemma PageInKeeps(s: State, v: Vid)
    requires Inv(s) && Enabled(s, PageIn(v))
    ensures Inv(Next(s, PageIn(v)))
  {
    hide Inv, Follows;
    Counts(s, v);
    var x := s.vnodes[v];
    var y := x.(nres := x.nres + 1, refs := x.refs + 1, pages := [s.unused] + x.pages);
    assert forall q :: q in y.pages <==> q == s.unused || q in x.pages;
    forall u | Owned(s, u, v) ensures PlaceOk(s.threads[u], y, s.unused + 1) {
      FirstFollows(x.pages, s.unused, s.threads[u].cur, s.threads[u].next);
    }
    FreshKeeps(s, s.unused + 1);
    var r := s.(unused := s.unused + 1);
    assert forall u :: Owned(r, u, v) <==> Owned(s, u, v);
    assert PagesOk(y, r.unused) by { assert s.unused !in x.pages; }
    SetKeeps(r, v, y);
  }

  lemma FirstFollows(l: seq<Pid>, p: Pid, cur: Pid, next: Option<Pid>)
    requires p != cur && (next.Some? ==> p != next.value)
    ensures Follows([p] + l, cur, next) <==> Follows(l, cur, next)
  {
    assert ([p] + l)[1..] == l;
  }

  lemma FreshKeeps(s: State, f: Pid)
    requires Inv(s) && s.unused <= f
    ensures Inv(s.(unused := f))
  {
    hide VnodeOk;
    forall w | w in s.vnodes ensures VnodeOk(s.(unused := f), w) {
      VnodeFrame(s, s.(unused := f), w);
    }
  }

  lemma CleanKeeps(s: State, v: Vid, c: set<Pid>)
    requires Inv(s) && v in s.vnodes && !s.vnodes[v].busy && forall p :: p in c ==> p in s.vnodes[v].pages
    ensures Inv(Set(s, v, s.vnodes[v].(cleaning := c)))
  {
    hide Inv, Follows;
    Counts(s, v);
    SetKeeps(s, v, s.vnodes[v].(cleaning := c));
  }

  // A vnode with a page is not busy.
  lemma PagedNotBusy(s: State, v: Vid)
    requires Inv(s) && v in s.vnodes && s.vnodes[v].pages != []
    ensures !s.vnodes[v].busy && forall p :: p in s.vnodes[v].cleaning ==> p in s.vnodes[v].pages
  {
    hide Follows;
    assert VnodeOk(s, v);
  }

  lemma ResumeKeeps(s: State, t: Tid)
    requires Inv(s) && Enabled(s, Resume(t))
    ensures Inv(Next(s, Resume(t)))
  {
    hide Inv, VnodeOk, FreeFrom, Walked;
    var p := s.threads[t];
    assert Owned(s, t, p.v);
    OwnerIs(s, t, p.v);
    var x := s.vnodes[p.v];
    if Gone(x, p.cur, p.next) {
      HaltKeeps(s);
    } else {
      WithoutIs(x.pages, p.cur);
      var y := x.(pages := Without(x.pages, p.cur), nres := x.nres - 1, refs := x.refs - 1);
      WalkKeeps(s, t, p.v, y, if p.next.None? then |y.pages| else IndexOf(y.pages, p.next.value));
    }
  }

  lemma DeleteKeeps(s: State, t: Tid)
    requires Inv(s) && Enabled(s, DeleteDone(t))
    ensures Inv(Next(s, DeleteDone(t)))
  {
    hide VnodeOk, OnePerKey;
    var v := s.threads[t].v;
    assert Owned(s, t, v);
    OwnerIs(s, t, v);
    var r := Next(s, DeleteDone(t));
    DeleteKey(s, r, v);
    forall w | w in r.vnodes ensures VnodeOk(r, w) {
      VnodeFrame(s, r, w);
    }
    forall u | u in r.threads && Owns(r.threads[u], Vof(r.threads[u])) ensures Vof(r.threads[u]) in r.vnodes {
      assert Owned(s, u, Vof(s.threads[u]));
    }
  }

  lemma DeleteKey(s: State, r: State, v: Vid)
    requires OnePerKey(s) && v in s.vnodes && r.vnodes == s.vnodes - {v} && r.inuse == Without(s.inuse, v)
    ensures OnePerKey(r)
  {
    WithoutIs(s.inuse, v);
  }

  lemma PageEventKeeps(s: State, e: Event)
    requires Inv(s) && Enabled(s, e) && (e.CleanStart? || e.CleanDone?)
    ensures Inv(Next(s, e))
  {
    hide Inv;
    var x := s.vnodes[e.v];
    assert e.CleanDone? ==> e.p in x.pages by { if e.CleanDone? { CleanedIn(s, e.v, e.p); } }
    assert x.pages != [];
    PagedNotBusy(s, e.v);
    CleanKeeps(s, e.v, if e.CleanStart? then x.cleaning + {e.p} else x.cleaning - {e.p});
  }

  lemma CleanedIn(s: State, v: Vid, p: Pid)
    requires Inv(s) && v in s.vnodes && p in s.vnodes[v].cleaning
    ensures p in s.vnodes[v].pages
  {
    assert VnodeOk(s, v);
  }

  lemma NextKeeps(s: State, e: Event)
    requires Inv(s) && Enabled(s, e)
    ensures Inv(Next(s, e))
  {
    hide Inv, VnodeOk, Walked, FreeFrom, Vput, Resumed;
    match e
    case Start(t, key) => LeaveKeeps(s, t, Finding(key));
    case Find(t, room) => FindKeeps(s, t, room);
    case ReadDone(t) => ReadKeeps(s, t);
    case Ref(v) => RefKeeps(s, v);
    case Put(t, v, linked) => PutKeeps(s, t, v, linked);
    case PageIn(v) => PageInKeeps(s, v);
    case PageOut(t, v, p, linked) => PageOutKeeps(s, t, v, p, linked);
    case Resume(t) => ResumeKeeps(s, t);
    case DeleteDone(t) => DeleteKeeps(s, t);
    case _ => PageEventKeeps(s, e);
  }

  // ---------- runs ----------

  ghost predicate CanRun(s: State, es: seq<Event>)
    decreases |es|
  {
    es == [] || (Enabled(s, es[0]) && CanRun(Next(s, es[0]), es[1..]))
  }

  ghost function After(s: State, es: seq<Event>): State
    requires CanRun(s, es)
    decreases |es|
  {
    if es == [] then s else After(Next(s, es[0]), es[1..])
  }

  ghost predicate Initial(s: State)
  {
    s.inuse == [] && s.vnodes == map[] && forall t :: t in s.threads ==> s.threads[t] == Elsewhere
  }

  lemma {:induction false} AfterInv(s: State, es: seq<Event>)
    requires Inv(s) && CanRun(s, es)
    ensures Inv(After(s, es))
    decreases |es|
  {
    hide Inv, Enabled, Next;
    if es != [] {
      NextKeeps(s, es[0]);
      AfterInv(Next(s, es[0]), es[1..]);
    }
  }

  lemma InitialInv(s: State)
    requires Initial(s)
    ensures Inv(s)
  {
  }

  // Over every run there is at most one vnode in core for a file.
  lemma OneVnodePerFile(s: State, es: seq<Event>, v: Vid, w: Vid)
    requires Initial(s) && CanRun(s, es)
    requires var r := After(s, es); v in r.vnodes && w in r.vnodes && r.vnodes[v].key == r.vnodes[w].key
    ensures v == w && After(s, es).inuse != [] && v in After(s, es).inuse
  {
    InitialInv(s);
    AfterInv(s, es);
  }

  // Where vget returns, it is a vnode that is not busy, is referenced and is of the file asked for.
  lemma VgetReturns(s: State, t: Tid, room: Option<Vid>)
    requires Inv(s) && Enabled(s, Find(t, room)) && Next(s, Find(t, room)).threads[t] == Elsewhere
    ensures exists v :: && v in s.vnodes && v in Next(s, Find(t, room)).vnodes
                        && var x := Next(s, Find(t, room)).vnodes[v];
                           x.key == s.threads[t].key && !x.busy && x.refs == s.vnodes[v].refs + 1 && x.active > 0
  {
    hide Inv, Lookup;
    LookupIs(s.inuse, s.vnodes, s.threads[t].key);
    var v := Lookup(s.inuse, s.vnodes, s.threads[t].key).value;
    assert v in s.vnodes && v in Next(s, Find(t, room)).vnodes;
  }

  lemma VgetReadReturns(s: State, t: Tid)
    requires Inv(s) && Enabled(s, ReadDone(t))
    ensures var v := s.threads[t].v; var r := Next(s, ReadDone(t));
            && v in s.vnodes && s.vnodes[v].busy && v in r.vnodes && !r.vnodes[v].busy && r.vnodes[v].refs == 1
            && r.vnodes[v].key == s.vnodes[v].key && r.threads[t] == Elsewhere
  {
    assert Owned(s, t, s.threads[t].v);
    OwnerIs(s, t, s.threads[t].v);
  }

  // ---------- a purge and the rest of the kernel ----------

  // While a vnode is purged, the vput for a page that is freed, by the purge or another
  // thread, neither starts another purge nor lets the last reference go.
  lemma PurgeNotReentered(s: State, t: Tid, v: Vid, x: Vnode, linked: bool)
    requires x.refs == x.nres + x.active + 1 && x.nres > 0
    ensures Vput(s, t, v, x.(nres := x.nres - 1), linked)
            == At(Set(s, v, x.(nres := x.nres - 1, refs := x.refs - 1)), t, Elsewhere)
  {
    hide Walked;
  }

  // From the page that the purge waits for to the end of the list no other page is busy.
  ghost predicate Ends(x: Vnode, cur: Pid)
  {
    forall i :: IndexOf(x.pages, cur) < i < |x.pages| ==> x.pages[i] !in x.cleaning
  }

  // What happens when the purge wakes. It fails an assertion if a page that it needs is
  // gone, or if it comes to the end while there is a page in front of the one it waited for
  // or an active reference, both of which only a vget during the purge can bring. Else it
  // sleeps again, or ends with one reference and no page and goes on to delete the vnode.
  lemma ResumeExact(s: State, t: Tid)
    requires Inv(s) && Enabled(s, Resume(t))
    ensures var p, r := s.threads[t], Next(s, Resume(t)); var x := s.vnodes[p.v];
            && (r.halted <==>
                  || Gone(x, p.cur, p.next)
                  || (Ends(x, p.cur) && !(x.active == 0 && IndexOf(x.pages, p.cur) == 0)))
            && (!r.halted ==>
                  && t in r.threads
                  && p.v in r.vnodes
                  && r.vnodes[p.v].key == x.key
                  && r.vnodes[p.v].active == x.active)
            && (!r.halted && Ends(x, p.cur) ==>
                  && r.threads[t] == Deleting(p.v)
                  && r.vnodes[p.v].pages == [] && r.vnodes[p.v].nres == 0 && r.vnodes[p.v].refs == 0)
            && (!r.halted && !Ends(x, p.cur) ==>
                  && r.threads[t].Purging? && r.threads[t].v == p.v
                  && IndexOf(r.vnodes[p.v].pages, r.threads[t].cur) == IndexOf(x.pages, p.cur))
  {
    hide Inv, FreeFrom, IndexOf;
    var p := s.threads[t];
    assert Owned(s, t, p.v);
    OwnerIs(s, t, p.v);
    var x := s.vnodes[p.v];
    if !Gone(x, p.cur, p.next) {
      var i := IndexOf(x.pages, p.cur);
      NextPlace(x.pages, p.cur, p.next);
      var y := x.(pages := Without(x.pages, p.cur), nres := x.nres - 1, refs := x.refs - 1);
      WithoutIs(x.pages, p.cur);
      RestEnds(x, p.cur);
      WalkEnds(y, i);
      var z := FreeFrom(y, i);
      if i < |z.pages| { IndexAt(z.pages, i); }
    }
  }

  // The page saved takes the place of the one that is freed.
  lemma NextPlace(l: seq<Pid>, cur: Pid, next: Option<Pid>)
    requires NoDup(l) && cur in l && (next.Some? ==> next.value in l) && Follows(l, cur, next)
    ensures var r := Without(l, cur);
            && IndexOf(l, cur) <= |r|
            && IndexOf(l, cur) == if next.None? then |r| else IndexOf(r, next.value)
  {
    WithoutIs(l, cur);
    IndexIs(l, cur);
    if next.Some? {
      IndexIs(l, next.value);
      WithoutIndex(l, cur, next.value);
    }
  }

  lemma {:induction false} WithoutAt(l: seq<Pid>, p: Pid)
    requires p in l
    ensures IndexOf(l, p) < |l| && Without(l, p) == l[..IndexOf(l, p)] + l[IndexOf(l, p) + 1..]
  {
    IndexIs(l, p);
    if l[0] != p {
      WithoutAt(l[1..], p);
      var i := IndexOf(l[1..], p);
      assert l[..i + 1] == [l[0]] + l[1..][..i] && l[1..][i + 1..] == l[i + 2..];
    }
  }

  lemma RestEnds(x: Vnode, cur: Pid)
    requires cur in x.pages
    ensures var l, i := Without(x.pages, cur), IndexOf(x.pages, cur);
            i <= |l| && (Ends(x, cur) <==> forall k :: i <= k < |l| ==> l[k] !in x.cleaning)
  {
    hide IndexOf;
    WithoutAt(x.pages, cur);
    var l, i := Without(x.pages, cur), IndexOf(x.pages, cur);
    assert forall k :: i <= k < |l| ==> l[k] == x.pages[k + 1];
    assert forall k :: i < k < |x.pages| ==> x.pages[k] == l[k - 1];
  }

  // A walk comes to the end exactly if it meets no busy page.
  lemma WalkEnds(x: Vnode, i: nat)
    requires i <= |x.pages| && NoDup(x.pages)
    ensures var y := FreeFrom(x, i);
            && i <= |y.pages| <= |x.pages| && NoDup(y.pages) && y.key == x.key && y.active == x.active
            && x.nres - y.nres == x.refs - y.refs == |x.pages| - |y.pages|
            && (|y.pages| == i <==> forall k :: i <= k < |x.pages| ==> x.pages[k] !in x.cleaning)
  {
    hide FreeFrom;
    FreeFromIs(x, i);
    FreeFromMembers(x, i);
    var y := FreeFrom(x, i);
    assert forall j :: 0 <= j < i ==> y.pages[j] == y.pages[..i][j] == x.pages[..i][j] == x.pages[j];
    if k :| i <= k < |x.pages| && x.pages[k] in x.cleaning {
      assert x.pages[k] in y.pages;
    }
    if i < |y.pages| {
      assert y.pages[i] in y.pages;
      var k :| 0 <= k < |x.pages| && x.pages[k] == y.pages[i];
    }
  }

  // No active reference, and nothing before the page that t waits for in its purge.
  ghost predicate Alone(s: State, t: Tid)
  {
    && t in s.threads && s.threads[t].Purging? && s.threads[t].v in s.vnodes && s.vnodes[s.threads[t].v].active == 0
    && (s.threads[t].cur in s.vnodes[s.threads[t].v].pages ==> s.vnodes[s.threads[t].v].pages[0] == s.threads[t].cur)
  }

  // A purge begins alone, or comes to its end at once, and fails no assertion.
  lemma PurgeBegins(s: State, e: Event)
    requires Inv(s) && Enabled(s, e) && (e.Put? || e.PageOut?)
    ensures var r := Next(s, e);
            && !r.halted && e.t in r.threads && (r.threads[e.t].Purging? ==> Alone(r, e.t) && r.threads[e.t].v == e.v)
            && (r.threads[e.t].Deleting? ==> e.v in r.vnodes && r.vnodes[e.v].pages == [] && r.vnodes[e.v].nres == 0)
  {
    hide Inv, FreeFrom, Follows, Gone;
    Counts(s, e.v);
    var x := s.vnodes[e.v];
    if e.PageOut? { WithoutIs(x.pages, e.p); }
    var y := if e.Put? then x.(active := x.active - 1) else x.(nres := x.nres - 1, pages := Without(x.pages, e.p));
    WalkEnds(y, 0);
    FreeFromIs(y, 0);
    assert y.nres == y.refs - 1 ==> forall u :: !Owned(s, u, e.v);
  }

  // ---------- what vget and vput do ----------

  // The vnode goes: its pages up to the first busy one are freed, and t sleeps on that one
  // with the next one saved, or there is none and t deletes the vnode.
  ghost predicate Goes(r: State, t: Tid, v: Vid, l: seq<Pid>, cleaning: set<Pid>)
  {
    && t in r.threads && v in r.vnodes && r.vnodes[v].active == 0 && r.vnodes[v].cleaning == cleaning
    && exists i :: 0 <= i <= |l| && GoesTo(r.threads[t], r.vnodes[v], v, l, cleaning, i)
  }

  ghost predicate GoesTo(p: Place, y: Vnode, v: Vid, l: seq<Pid>, cleaning: set<Pid>, i: nat)
    requires i <= |l|
  {
    && (forall k :: 0 <= k < i ==> l[k] !in cleaning) && y.pages == l[i..] && y.nres == |l| - i
    && if i == |l| then p == Deleting(v) && y.busy && y.refs == 0
       else && l[i] in cleaning && !y.busy && y.refs == |l| - i + 1
            && p == Purging(v, l[i], if i + 1 < |l| then Some(l[i + 1]) else None)
  }

  // A walk from place `from` on frees the pages up to the next busy one.
  lemma {:induction false} FreeOn(x: Vnode, from: nat, i: nat)
    requires from <= i <= |x.pages| && (forall k :: from <= k < i ==> x.pages[k] !in x.cleaning)
    requires i < |x.pages| ==> x.pages[i] in x.cleaning
    ensures FreeFrom(x, from)
            == x.(pages := x.pages[..from] + x.pages[i..], nres := x.nres - (i - from), refs := x.refs - (i - from))
    decreases i
  {
    if i > from {
      var l := x.pages[..from] + x.pages[from + 1..];
      assert forall k :: from <= k < |l| ==> l[k] == x.pages[k + 1];
      assert l[..from] + l[i - 1..] == x.pages[..from] + x.pages[i..];
      FreeOn(x.(pages := l, nres := x.nres - 1, refs := x.refs - 1), from, i - 1);
    } else {
      assert x.pages[..from] + x.pages[from..] == x.pages;
    }
  }

  lemma NextBusy(l: seq<Pid>, cleaning: set<Pid>, from: nat) returns (i: nat)
    requires from <= |l|
    ensures from <= i <= |l| && (forall k :: from <= k < i ==> l[k] !in cleaning) && (i < |l| ==> l[i] in cleaning)
  {
    i := from;
    while i < |l| && l[i] !in cleaning
      invariant from <= i <= |l| && forall k :: from <= k < i ==> l[k] !in cleaning
    {
      i := i + 1;
    }
  }

  lemma WalkGoes(s: State, t: Tid, v: Vid, x: Vnode)
    requires !x.busy && x.active == 0 && x.nres == |x.pages| && x.refs == x.nres + 1
    ensures Goes(Walked(s, t, v, x, 0), t, v, x.pages, x.cleaning) && Walked(s, t, v, x, 0).halted == s.halted
  {
    hide FreeFrom;
    var i := NextBusy(x.pages, x.cleaning, 0);
    FreeOn(x, 0, i);
    assert x.pages[..0] + x.pages[i..] == x.pages[i..];
    var r := Walked(s, t, v, x, 0);
    assert GoesTo(r.threads[t], r.vnodes[v], v, x.pages, x.cleaning, i);
  }

  // A purge that wakes and does not come to the end frees the page it waited for and those
  // after it up to the next busy one, and sleeps on that.
  lemma ResumeGoesOn(s: State, t: Tid)
    requires Inv(s) && Enabled(s, Resume(t)) && !Next(s, Resume(t)).halted
    requires !Ends(s.vnodes[s.threads[t].v], s.threads[t].cur)
    ensures var v, x := s.threads[t].v, s.vnodes[s.threads[t].v]; var i := IndexOf(x.pages, s.threads[t].cur);
            exists j :: i < j < |x.pages| && SleepsOn(Next(s, Resume(t)), t, v, x, i, j)
  {
    hide Inv, FreeFrom, IndexOf, Walked, Follows, SleepsOn;
    var p := s.threads[t];
    assert Owned(s, t, p.v);
    OwnerIs(s, t, p.v);
    var x := s.vnodes[p.v];
    var i := IndexOf(x.pages, p.cur);
    NextPlace(x.pages, p.cur, p.next);
    WithoutPlace(x.pages, p.cur);
    var y := x.(pages := Without(x.pages, p.cur), nres := x.nres - 1, refs := x.refs - 1);
    assert Next(s, Resume(t)) == Walked(s, t, p.v, y, i);
    var j := NextBusy(x.pages, x.cleaning, i + 1);
    WalkSleeps(s, t, p.v, x, i, j);
  }

  lemma WalkSleeps(s: State, t: Tid, v: Vid, x: Vnode, i: nat, j: nat)
    requires i < j < |x.pages| && (forall k :: i < k < j ==> x.pages[k] !in x.cleaning) && x.pages[j] in x.cleaning
    ensures var y := x.(pages := x.pages[..i] + x.pages[i + 1..], nres := x.nres - 1, refs := x.refs - 1);
            SleepsOn(Walked(s, t, v, y, i), t, v, x, i, j)
  {
    hide FreeFrom;
    var y := x.(pages := x.pages[..i] + x.pages[i + 1..], nres := x.nres - 1, refs := x.refs - 1);
    assert forall k :: i <= k < |y.pages| ==> y.pages[k] == x.pages[k + 1];
    FreeOn(y, i, j - 1);
    assert y.pages[..i] + y.pages[j - 1..] == x.pages[..i] + x.pages[j..];
  }

  ghost predicate SleepsOn(r: State, t: Tid, v: Vid, x: Vnode, i: nat, j: nat)
    requires i < j < |x.pages|
  {
    && (forall k :: i < k < j ==> x.pages[k] !in x.cleaning) && x.pages[j] in x.cleaning
    && v in r.vnodes && t in r.threads
    && r.vnodes[v] == x.(pages := x.pages[..i] + x.pages[j..], nres := x.nres - (j - i), refs := x.refs - (j - i))
    && r.threads[t] == Purging(v, x.pages[j], if j + 1 < |x.pages| then Some(x.pages[j + 1]) else None)
  }

  lemma {:induction false} WithoutPlace(l: seq<Pid>, p: Pid)
    requires p in l
    ensures IndexOf(l, p) < |l| && Without(l, p) == l[..IndexOf(l, p)] + l[IndexOf(l, p) + 1..]
  {
    if l[0] != p {
      WithoutPlace(l[1..], p);
      var i := IndexOf(l[1..], p);
      assert [l[0]] + l[1..][..i] == l[..i + 1] && l[1..][i + 1..] == l[i + 2..];
      assert [l[0]] + (l[1..][..i] + l[1..][i + 1..]) == l[..i + 1] + l[i + 2..];
    }
  }

  // Once a vnode is deleted there is none of its file in core, and the others are as before.
  lemma DeleteExact(s: State, t: Tid)
    requires Inv(s) && Enabled(s, DeleteDone(t))
    ensures var v, r := s.threads[t].v, Next(s, DeleteDone(t));
            && v in s.vnodes && t in r.threads && r.threads[t] == Elsewhere && v !in r.inuse
            && (forall w :: w in r.vnodes <==> w in s.vnodes && w != v)
            && forall w :: w in r.vnodes ==> r.vnodes[w] == s.vnodes[w] && r.vnodes[w].key != s.vnodes[v].key
  {
    hide VnodeOk;
    assert Owned(s, t, s.threads[t].v);
    assert Vof(s.threads[t]) == s.threads[t].v;
    WithoutIs(s.inuse, s.threads[t].v);
  }

  // No thread is purging v.
  ghost predicate Unpurged(s: State, v: Vid)
  {
    forall u :: u in s.threads && s.threads[u].Purging? ==> s.threads[u].v != v
  }

  // A vput of an active reference makes the vnode go exactly if it was the last one, nobody
  // purges the vnode yet, and it has no links or no pages. Else one reference goes and all
  // else stays.
  lemma PutExact(s: State, t: Tid, v: Vid, linked: bool)
    requires Inv(s) && Enabled(s, Put(t, v, linked))
    ensures var x, r := s.vnodes[v], Next(s, Put(t, v, linked));
            && !r.halted && OnlyAt(s, r, t, v)
            && if x.active == 1 && Unpurged(s, v) && (!linked || x.pages == [])
               then Goes(r, t, v, x.pages, x.cleaning)
               else && t in r.threads && r.threads[t] == Elsewhere && v in r.vnodes
                    && r.vnodes[v] == x.(refs := x.refs - 1, active := x.active - 1)
  {
    hide Inv, FreeFrom, Follows, Gone, Goes, OnlyAt, Walked;
    Counts(s, v);
    OwnersPurge(s, v);
    var x := s.vnodes[v];
    var y := x.(active := x.active - 1);
    VputOnly(s, t, v, y, linked);
    if y.nres == y.refs - 1 && !linked {
      WalkGoes(s, t, v, y);
    } else if y.refs == 1 {
      NoPages(Next(s, Put(t, v, linked)), t, v, x.cleaning);
    }
  }

  lemma OwnersPurge(s: State, v: Vid)
    requires forall u :: Owned(s, u, v) ==> s.threads[u].Purging?
    ensures Unpurged(s, v) <==> forall u :: !Owned(s, u, v)
  {
    assert forall u :: u in s.threads && s.threads[u].Purging? && s.threads[u].v == v ==> Owned(s, u, v);
  }

  lemma NoPages(r: State, t: Tid, v: Vid, cleaning: set<Pid>)
    requires t in r.threads && r.threads[t] == Deleting(v) && v in r.vnodes
    requires var y := r.vnodes[v]; y.pages == [] && y.nres == 0 && y.refs == 0 && y.active == 0 && y.busy
    requires r.vnodes[v].cleaning == cleaning
    ensures Goes(r, t, v, [], cleaning)
  {
    assert GoesTo(r.threads[t], r.vnodes[v], v, [], cleaning, 0);
  }

  // The same for the reference of a page that is freed: the vnode goes if there is no active
  // one, and no links or no other page.
  lemma PageOutExact(s: State, t: Tid, v: Vid, p: Pid, linked: bool)
    requires Inv(s) && Enabled(s, PageOut(t, v, p, linked))
    ensures var x, r := s.vnodes[v], Next(s, PageOut(t, v, p, linked));
            && !r.halted && OnlyAt(s, r, t, v)
            && if x.active == 0 && Unpurged(s, v) && (!linked || x.pages == [p])
               then Goes(r, t, v, Without(x.pages, p), x.cleaning)
               else && t in r.threads && r.threads[t] == Elsewhere && v in r.vnodes
                    && r.vnodes[v] == x.(refs := x.refs - 1, nres := x.nres - 1, pages := Without(x.pages, p))
  {
    hide Inv, FreeFrom, Follows, Gone, Goes, OnlyAt, Walked;
    Counts(s, v);
    OwnersPurge(s, v);
    var x := s.vnodes[v];
    WithoutIs(x.pages, p);
    OnlyOne(x.pages, p);
    var y := x.(nres := x.nres - 1, pages := Without(x.pages, p));
    VputOnly(s, t, v, y, linked);
    if y.nres == y.refs - 1 && !linked {
      WalkGoes(s, t, v, y);
    } else if y.refs == 1 {
      NoPages(Next(s, PageOut(t, v, p, linked)), t, v, x.cleaning);
    }
  }

  lemma OnlyOne(l: seq<Pid>, p: Pid)
    requires p in l && |Without(l, p)| == |l| - 1
    ensures l == [p] <==> Without(l, p) == []
  {
    if |l| == 1 { assert l[0] == p; }
  }

  // vget of a file in core, from looking it up on: a vnode that is not busy is returned with
  // one reference more, and a busy one is waited for.
  lemma FindsThere(s: State, t: Tid, room: Option<Vid>, v: Vid)
    requires Inv(s) && Enabled(s, Find(t, room)) && v in s.vnodes && s.vnodes[v].key == s.threads[t].key
    ensures var x, r := s.vnodes[v], Next(s, Find(t, room));
            && !r.halted && OnlyAt(s, r, t, v) && r.inuse == s.inuse && t in r.threads && v in r.vnodes
            && if x.busy then r.threads[t] == Waiting(v, x.key) && r.vnodes[v] == x
               else r.threads[t] == Elsewhere && r.vnodes[v] == x.(refs := x.refs + 1, active := x.active + 1)
  {
    hide Lookup, VnodeOk;
    LookupIs(s.inuse, s.vnodes, s.threads[t].key);
  }

  // vget of any other file reads a new vnode in, or looks again where there is no memory.
  lemma FindsNone(s: State, t: Tid, room: Option<Vid>)
    requires Inv(s) && Enabled(s, Find(t, room)) && forall v :: v in s.vnodes ==> s.vnodes[v].key != s.threads[t].key
    ensures var key, r := s.threads[t].key, Next(s, Find(t, room));
            if room == None then r == s
            else && !r.halted && OnlyAt(s, r, t, room.value) && r.inuse == [room.value] + s.inuse && t in r.threads
                 && r.threads[t] == Reading(room.value) && room.value in r.vnodes
                 && r.vnodes[room.value] == Vnode(key, true, 0, 0, 0, [], {})
  {
    hide Lookup, Inv;
    LookupIs(s.inuse, s.vnodes, s.threads[t].key);
  }

  // A vput undoes a vref, and freeing a page undoes bringing it in.
  lemma RefPut(s: State, t: Tid, v: Vid, linked: bool)
    requires Inv(s) && Enabled(s, Ref(v)) && t in s.threads && s.threads[t] == Elsewhere
    ensures Enabled(Next(s, Ref(v)), Put(t, v, linked)) && Next(Next(s, Ref(v)), Put(t, v, linked)) == s
  {
    hide Inv, Walked, Follows, Gone;
    Counts(s, v);
    var r := Next(Next(s, Ref(v)), Put(t, v, linked));
    assert r.vnodes == s.vnodes && r.threads == s.threads;
  }

  lemma PageInOut(s: State, t: Tid, v: Vid, linked: bool)
    requires Inv(s) && Enabled(s, PageIn(v)) && t in s.threads && s.threads[t] == Elsewhere
    ensures Enabled(Next(s, PageIn(v)), PageOut(t, v, s.unused, linked))
    ensures Next(Next(s, PageIn(v)), PageOut(t, v, s.unused, linked)) == s.(unused := s.unused + 1)
  {
    hide Inv, Walked, Follows, Gone;
    Counts(s, v);
    assert s.unused !in s.vnodes[v].pages;
    assert ([s.unused] + s.vnodes[v].pages)[1..] == s.vnodes[v].pages;
    var r := Next(Next(s, PageIn(v)), PageOut(t, v, s.unused, linked));
    assert r.vnodes == s.vnodes && r.threads == s.threads;
  }

  // Only vnode w and thread u have changed, if the kernel goes on.
  ghost predicate OnlyAt(s: State, r: State, u: Tid, w: Vid)
  {
    && (forall v :: v in s.vnodes && v != w ==> v in r.vnodes && r.vnodes[v] == s.vnodes[v])
    && (forall t :: t in s.threads && t != u ==> t in r.threads && r.threads[t] == s.threads[t])
  }

  lemma WalkedOnly(s: State, t: Tid, v: Vid, x: Vnode, i: nat)
    requires i <= |x.pages|
    ensures OnlyAt(s, Walked(s, t, v, x, i), t, v)
  {
    hide FreeFrom;
  }

  lemma VputOnly(s: State, t: Tid, v: Vid, x: Vnode, linked: bool)
    ensures OnlyAt(s, Vput(s, t, v, x, linked), t, v)
  {
    hide Walked;
    WalkedOnly(s, t, v, x, 0);
  }

  lemma ResumedOnly(s: State, t: Tid, v: Vid, x: Vnode, cur: Pid, next: Option<Pid>)
    ensures OnlyAt(s, Resumed(s, t, v, x, cur, next), t, v)
  {
    hide Walked;
    var y := x.(pages := Without(x.pages, cur), nres := x.nres - 1, refs := x.refs - 1);
    WalkedOnly(s, t, v, y, if next.None? then |y.pages| else IndexOf(y.pages, next.value));
  }

  // What an event of another thread does to a vnode that t purges, if it is no vget of it.
  ghost predicate Passed(s: State, r: State, t: Tid, v: Vid)
    requires v in s.vnodes && t in s.threads
  {
    && t in r.threads && r.threads[t] == s.threads[t] && v in r.vnodes
    && r.vnodes[v].key == s.vnodes[v].key && r.vnodes[v].active == 0
    && (|| r.vnodes[v].pages == s.vnodes[v].pages
        || exists p :: p in s.vnodes[v].pages && r.vnodes[v].pages == Without(s.vnodes[v].pages, p))
  }

  lemma OthersPass(s: State, e: Event, t: Tid)
    requires Inv(s) && Enabled(s, e) && Alone(s, t) && e != Resume(t)
    requires e.Find? ==> s.threads[e.t].key != s.vnodes[s.threads[t].v].key
    ensures Passed(s, Next(s, e), t, s.threads[t].v)
  {
    hide Inv, VnodeOk, Vput, Resumed, Lookup;
    var v := s.threads[t].v;
    assert Owned(s, t, v);
    OwnerIs(s, t, v);
    match e
    case Find(u, room) => LookupIs(s.inuse, s.vnodes, s.threads[u].key);
    case ReadDone(u) => assert Owned(s, u, s.threads[u].v);
    case Put(u, w, linked) => VputOnly(s, u, w, s.vnodes[w].(active := s.vnodes[w].active - 1), linked);
    case PageOut(u, w, p, linked) => PageOutPasses(s, t, u, w, p, linked);
    case Resume(u) =>
      var q := s.threads[u];
      assert Owned(s, u, q.v);
      ResumedOnly(s, u, q.v, s.vnodes[q.v], q.cur, q.next);
    case DeleteDone(u) => assert Owned(s, u, s.threads[u].v);
    case _ =>
  }

  lemma PageOutPasses(s: State, t: Tid, u: Tid, w: Vid, p: Pid, linked: bool)
    requires Inv(s) && Enabled(s, PageOut(u, w, p, linked)) && Alone(s, t)
    ensures Passed(s, Next(s, PageOut(u, w, p, linked)), t, s.threads[t].v)
  {
    hide Inv, VnodeOk, Vput, Follows, Gone;
    var v, x := s.threads[t].v, s.vnodes[w];
    assert Owned(s, t, v);
    OwnerIs(s, t, v);
    if w == v {
      assert |x.pages| > 0;
      PurgeNotReentered(s, u, w, x.(pages := Without(x.pages, p)), linked);
    } else {
      VputOnly(s, u, w, x.(nres := x.nres - 1, pages := Without(x.pages, p)), linked);
    }
  }

  // So a purge that nobody looks for stays alone.
  lemma AloneStep(s: State, e: Event, t: Tid)
    requires Inv(s) && Enabled(s, e) && Alone(s, t) && !Next(s, e).halted
    requires e.Find? ==> s.threads[e.t].key != s.vnodes[s.threads[t].v].key
    requires t in Next(s, e).threads && Next(s, e).threads[t].Purging?
    ensures Alone(Next(s, e), t)
    ensures var v := s.threads[t].v; Next(s, e).threads[t].v == v && Next(s, e).vnodes[v].key == s.vnodes[v].key
  {
    hide Inv, Next, Enabled, Ends, Passed;
    var v := s.threads[t].v;
    if e == Resume(t) {
      ResumeExact(s, t);
      FirstIndex(s, t);
      NextKeeps(s, e);
      FirstBack(Next(s, e), t);
    } else {
      OthersPass(s, e, t);
      assert Owned(s, t, v);
      OwnerIs(s, t, v);
      PassedAlone(s, Next(s, e), t);
    }
  }

  lemma FirstIndex(s: State, t: Tid)
    requires Alone(s, t)
    ensures var p := s.threads[t]; p.cur in s.vnodes[p.v].pages ==> IndexOf(s.vnodes[p.v].pages, p.cur) == 0
  {
  }

  lemma FirstBack(s: State, t: Tid)
    requires t in s.threads && s.threads[t].Purging? && s.threads[t].v in s.vnodes
    ensures var p := s.threads[t]; var l := s.vnodes[p.v].pages; p.cur in l && IndexOf(l, p.cur) == 0 ==> l[0] == p.cur
  {
  }

  lemma PassedAlone(s: State, r: State, t: Tid)
    requires Alone(s, t) && Passed(s, r, t, s.threads[t].v) && NoDup(s.vnodes[s.threads[t].v].pages)
    ensures Alone(r, t) && r.threads[t].v == s.threads[t].v
            && r.vnodes[s.threads[t].v].key == s.vnodes[s.threads[t].v].key
  {
    var v, cur := s.threads[t].v, s.threads[t].cur;
    var l := s.vnodes[v].pages;
    if r.vnodes[v].pages != l {
      var p :| p in l && r.vnodes[v].pages == Without(l, p);
      WithoutIs(l, p);
      WithoutMember(l, p, cur);
    }
  }

  lemma {:induction false} WithoutMember(l: seq<Pid>, p: Pid, q: Pid)
    ensures q in Without(l, p) ==> q in l
    ensures l != [] && l[0] == q && q in Without(l, p) && p != q ==> Without(l, p) != [] && Without(l, p)[0] == q
  {
    if l != [] && l[0] != p { WithoutMember(l[1..], p, q); }
  }

  // A run in which t goes on purging and nobody looks for the file.
  ghost predicate Undisturbed(s: State, es: seq<Event>, t: Tid, key: Key)
    decreases |es|
  {
    es == [] || (&& Enabled(s, es[0]) && (es[0].Find? ==> s.threads[es[0].t].key != key) && !Next(s, es[0]).halted
                 && t in Next(s, es[0]).threads && Next(s, es[0]).threads[t].Purging?
                    && Undisturbed(Next(s, es[0]), es[1..], t, key))
  }

  lemma {:induction false} AloneRun(s: State, es: seq<Event>, t: Tid)
    requires Inv(s) && Alone(s, t) && Undisturbed(s, es, t, s.vnodes[s.threads[t].v].key)
    ensures CanRun(s, es) && Inv(After(s, es)) && Alone(After(s, es), t)
    decreases |es|
  {
    hide Inv, Enabled, Next, Alone;
    if es != [] {
      AloneStep(s, es[0], t);
      NextKeeps(s, es[0]);
      AloneRun(Next(s, es[0]), es[1..], t);
    }
  }

  // The event begins a purge that has to wait.
  ghost predicate BeginsPurge(s: State, e: Event)
  {
    && Enabled(s, e) && (e.Put? || e.PageOut?)
    && e.t in Next(s, e).threads && Next(s, e).threads[e.t].Purging? && e.v in Next(s, e).vnodes
  }

  // The purge of t, now to wake, fails an assertion exactly if the page it waited for or the
  // one it had saved is gone. Else it sleeps again, or has come down to one reference and no
  // page, drops the reference and goes on to delete the vnode.
  ghost predicate WakesExactly(r: State, t: Tid)
    requires Enabled(r, Resume(t))
  {
    var v, q := r.threads[t].v, Next(r, Resume(t));
    && (q.halted <==> Gone(r.vnodes[v], r.threads[t].cur, r.threads[t].next))
    && (!q.halted ==>
          && t in q.threads && v in q.vnodes && (q.threads[t].Purging? || q.threads[t] == Deleting(v))
          && (q.threads[t].Deleting? ==> q.vnodes[v].pages == [] && q.vnodes[v].nres == 0 && q.vnodes[v].refs == 0))
  }

  // So it is from its begin on, over every run in which nobody looks for the file.
  lemma PurgeExact(s: State, e: Event, es: seq<Event>)
    requires Inv(s) && BeginsPurge(s, e) && Undisturbed(Next(s, e), es, e.t, Next(s, e).vnodes[e.v].key)
    requires CanRun(Next(s, e), es) && Enabled(After(Next(s, e), es), Resume(e.t))
    ensures WakesExactly(After(Next(s, e), es), e.t)
  {
    hide Inv, Next, Ends;
    PurgeBegins(s, e);
    NextKeeps(s, e);
    AloneRun(Next(s, e), es, e.t);
    var r := After(Next(s, e), es);
    ResumeExact(r, e.t);
    FirstIndex(r, e.t);
  }

  // ---------- who waits ----------

  // A thread that waits for a busy vnode is woken by its deletion, and by nothing else.
  lemma WaiterStays(s: State, e: Event, t: Tid)
    requires Enabled(s, e) && t in s.threads && s.threads[t].Waiting?
    ensures if e.DeleteDone? && s.threads[e.t].v == s.threads[t].v
            then Next(s, e).threads[t] == Finding(s.threads[t].key)
            else t in Next(s, e).threads && Next(s, e).threads[t] == s.threads[t]
  {
    hide FreeFrom, Lookup;
  }

  // ---------- some runs ----------

  lemma {:induction false} Snoc(s: State, es: seq<Event>, r: State, e: Event, q: State)
    requires CanRun(s, es) && After(s, es) == r && Enabled(r, e) && Next(r, e) == q
    ensures CanRun(s, es + [e]) && After(s, es + [e]) == q
    decreases |es|
  {
    hide Next, Enabled;
    if es == [] {
      assert es + [e] == [e] && [e][1..] == [];
    } else {
      assert (es + [e])[1..] == es[1..] + [e] && (es + [e])[0] == es[0];
      Snoc(Next(s, es[0]), es[1..], r, e, q);
    }
  }

  // Two threads, at p and q, and the vnodes that `xs` holds.
  function Scene(xs: seq<Vnode>, p: Place, q: Place, unused: Pid): State
    requires |xs| <= 1
  {
    State(if xs == [] then [] else [0], if xs == [] then map[] else map[0 := xs[0]], map[0 := p, 1 := q], unused, false)
  }

  function Nobody(): State { Scene([], Elsewhere, Elsewhere, 0) }

  const KEY := Key(0, 0)

  // A vnode with page 0.
  function Paged(refs: int, active: nat, cleaning: set<Pid>): Vnode
  {
    Vnode(KEY, false, refs, 1, active, [0], cleaning)
  }

  lemma SceneSteps(xs: seq<Vnode>, p: Place, q: Place, p': Place, q': Place, x: Vnode, unused: Pid)
    requires |xs| <= 1
    ensures At(Scene(xs, p, q, unused), 0, p') == Scene(xs, p', q, unused)
    ensures At(Scene(xs, p, q, unused), 1, q') == Scene(xs, p, q', unused)
    ensures |xs| == 1 ==> Set(Scene(xs, p, q, unused), 0, x) == Scene([x], p, q, unused)
  {
    assert map[0 := p, 1 := q][0 := p'] == map[0 := p', 1 := q];
    assert map[0 := p, 1 := q][1 := q'] == map[0 := p, 1 := q'];
    assert |xs| == 1 ==> map[0 := xs[0]][0 := x] == map[0 := x];
  }

  lemma BeginStep(q: Place)
    ensures var s := Scene([], Elsewhere, q, 0);
            Enabled(s, Start(0, KEY)) && Next(s, Start(0, KEY)) == Scene([], Finding(KEY), q, 0)
    ensures var s := Scene([], Finding(KEY), q, 0);
            Enabled(s, Find(0, Some(0))) && Next(s, Find(0, Some(0))) == Scene([NewVnode(KEY)], Reading(0), q, 0)
  {
    SceneSteps([], Elsewhere, q, Finding(KEY), q, NewVnode(KEY), 0);
    SceneSteps([], Finding(KEY), q, Reading(0), q, NewVnode(KEY), 0);
    assert [0] + [] == [0];
  }

  // The first thread reads the vnode in.
  function Reads(): seq<Event> { [Start(0, KEY), Find(0, Some(0))] }

  lemma ReadsIn()
    ensures Initial(Nobody()) && CanRun(Nobody(), Reads())
            && After(Nobody(), Reads()) == Scene([NewVnode(KEY)], Reading(0), Elsewhere, 0)
  {
    hide Next, Enabled, CanRun, After;
    BeginStep(Elsewhere);
    EmptyRun(Nobody());
    Snoc(Nobody(), [], Nobody(), Start(0, KEY), Scene([], Finding(KEY), Elsewhere, 0));
    assert [] + [Start(0, KEY)] == [Start(0, KEY)];
    Snoc(Nobody(), [Start(0, KEY)], Scene([], Finding(KEY), Elsewhere, 0), Find(0, Some(0)),
         Scene([NewVnode(KEY)], Reading(0), Elsewhere, 0));
    assert [Start(0, KEY)] + [Find(0, Some(0))] == Reads();
  }

  lemma EmptyRun(s: State)
    ensures CanRun(s, []) && After(s, []) == s
  {
  }

  // One that comes while the vnode is read in is left behind, although the vnode is not busy
  // any more.
  lemma WaiterForgotten()
    ensures var es := Reads() + [Start(1, KEY)] + [Find(1, None)] + [ReadDone(0)];
            && Initial(Nobody()) && CanRun(Nobody(), es)
            && var r := After(Nobody(), es);
               && 1 in r.threads
               && r.threads[1] == Waiting(0, KEY)
               && 0 in r.vnodes
               && !r.vnodes[0].busy
  {
    hide CanRun, After;
    var x := NewVnode(KEY);
    var y := x.(busy := false, refs := 1, active := 1);
    ReadsIn();
    SceneSteps([x], Reading(0), Elsewhere, Elsewhere, Finding(KEY), y, 0);
    Snoc(Nobody(), Reads(), Scene([x], Reading(0), Elsewhere, 0), Start(1, KEY),
         Scene([x], Reading(0), Finding(KEY), 0));
    SceneSteps([x], Reading(0), Finding(KEY), Elsewhere, Waiting(0, KEY), y, 0);
    Snoc(Nobody(), Reads() + [Start(1, KEY)], Scene([x], Reading(0), Finding(KEY), 0), Find(1, None),
         Scene([x], Reading(0), Waiting(0, KEY), 0));
    SceneSteps([x], Reading(0), Waiting(0, KEY), Elsewhere, Elsewhere, y, 0);
    SceneSteps([y], Reading(0), Waiting(0, KEY), Elsewhere, Elsewhere, y, 0);
    Snoc(Nobody(), Reads() + [Start(1, KEY)] + [Find(1, None)], Scene([x], Reading(0), Waiting(0, KEY), 0), ReadDone(0),
         Scene([y], Elsewhere, Waiting(0, KEY), 0));
  }

  // The first thread reads the vnode in, a page comes in and is being cleaned, and the last
  // reference goes: a purge that waits for the page.
  function Dies(): seq<Event> { Reads() + [ReadDone(0)] + [PageIn(0)] + [CleanStart(0, 0)] + [Put(0, 0, false)] }

  lemma Dying()
    ensures Initial(Nobody()) && CanRun(Nobody(), Dies())
    ensures After(Nobody(), Dies()) == Scene([Paged(2, 0, {0})], Purging(0, 0, None), Elsewhere, 1)
  {
    hide CanRun, After;
    var es := Reads();
    ReadsIn();
    var x := NewVnode(KEY);
    var y := x.(busy := false, refs := 1, active := 1);
    SceneSteps([x], Reading(0), Elsewhere, Elsewhere, Elsewhere, y, 0);
    SceneSteps([y], Reading(0), Elsewhere, Elsewhere, Elsewhere, y, 0);
    Snoc(Nobody(), es, Scene([x], Reading(0), Elsewhere, 0), ReadDone(0), Scene([y], Elsewhere, Elsewhere, 0));
    es := es + [ReadDone(0)];
    SceneSteps([y], Elsewhere, Elsewhere, Elsewhere, Elsewhere, Paged(2, 1, {}), 0);
    assert [0] + [] == [0];
    Snoc(Nobody(), es, Scene([y], Elsewhere, Elsewhere, 0), PageIn(0),
         Scene([Paged(2, 1, {})], Elsewhere, Elsewhere, 1));
    es := es + [PageIn(0)];
    SceneSteps([Paged(2, 1, {})], Elsewhere, Elsewhere, Elsewhere, Elsewhere, Paged(2, 1, {0}), 1);
    assert {} + {0} == {0};
    Snoc(Nobody(), es, Scene([Paged(2, 1, {})], Elsewhere, Elsewhere, 1), CleanStart(0, 0),
         Scene([Paged(2, 1, {0})], Elsewhere, Elsewhere, 1));
    es := es + [CleanStart(0, 0)];
    LastPut();
    Snoc(Nobody(), es, Scene([Paged(2, 1, {0})], Elsewhere, Elsewhere, 1), Put(0, 0, false),
         Scene([Paged(2, 0, {0})], Purging(0, 0, None), Elsewhere, 1));
  }

  lemma LastPut()
    ensures var s := Scene([Paged(2, 1, {0})], Elsewhere, Elsewhere, 1);
            Enabled(s, Put(0, 0, false))
                && Next(s, Put(0, 0, false)) == Scene([Paged(2, 0, {0})], Purging(0, 0, None), Elsewhere, 1)
  {
    var x := Paged(2, 0, {0});
    assert FreeFrom(x, 0) == x;
    SceneSteps([Paged(2, 1, {0})], Elsewhere, Elsewhere, Purging(0, 0, None), Elsewhere, x, 1);
    SceneSteps([x], Elsewhere, Elsewhere, Purging(0, 0, None), Elsewhere, x, 1);
  }

  lemma CleanedStep(refs: int, active: nat, p: Place, q: Place)
    ensures var s := Scene([Paged(refs, active, {0})], p, q, 1);
            Enabled(s, CleanDone(0, 0)) && Next(s, CleanDone(0, 0)) == Scene([Paged(refs, active, {})], p, q, 1)
  {
    SceneSteps([Paged(refs, active, {0})], p, q, p, q, Paged(refs, active, {}), 1);
    assert {0} - {0} == {};
  }

  // The daemon that cleaned the page frees it before the purge gets to run.
  lemma FreedWhileWaiting()
    ensures var es := Dies() + [CleanDone(0, 0)] + [PageOut(1, 0, 0, false)] + [Resume(0)];
            Initial(Nobody()) && CanRun(Nobody(), es) && After(Nobody(), es).halted
  {
    hide CanRun, After, Walked;
    Dying();
    var p := Purging(0, 0, None);
    CleanedStep(2, 0, p, Elsewhere);
    Snoc(Nobody(), Dies(), Scene([Paged(2, 0, {0})], p, Elsewhere, 1), CleanDone(0, 0),
         Scene([Paged(2, 0, {})], p, Elsewhere, 1));
    var y := Vnode(KEY, false, 1, 0, 0, [], {});
    SceneSteps([Paged(2, 0, {})], p, Elsewhere, p, Elsewhere, y, 1);
    SceneSteps([y], p, Elsewhere, p, Elsewhere, y, 1);
    assert Without([0], 0) == [] by { assert [0][1..] == []; }
    var es := Dies() + [CleanDone(0, 0)];
    Snoc(Nobody(), es, Scene([Paged(2, 0, {})], p, Elsewhere, 1), PageOut(1, 0, 0, false), Scene([y], p, Elsewhere, 1));
    Snoc(Nobody(), es + [PageOut(1, 0, 0, false)], Scene([y], p, Elsewhere, 1), Resume(0),
         Halt(Scene([y], p, Elsewhere, 1)));
  }

  lemma LateFind()
    ensures var s := Scene([Paged(2, 0, {0})], Purging(0, 0, None), Elsewhere, 1);
            Enabled(s, Start(1, KEY))
                && Next(s, Start(1, KEY)) == Scene([Paged(2, 0, {0})], Purging(0, 0, None), Finding(KEY), 1)
    ensures var s := Scene([Paged(2, 0, {0})], Purging(0, 0, None), Finding(KEY), 1);
            Enabled(s, Find(1, None))
                && Next(s, Find(1, None)) == Scene([Paged(3, 1, {0})], Purging(0, 0, None), Elsewhere, 1)
  {
    var p := Purging(0, 0, None);
    SceneSteps([Paged(2, 0, {0})], p, Elsewhere, p, Finding(KEY), Paged(3, 1, {0}), 1);
    SceneSteps([Paged(2, 0, {0})], p, Finding(KEY), p, Elsewhere, Paged(3, 1, {0}), 1);
    SceneSteps([Paged(3, 1, {0})], p, Finding(KEY), p, Elsewhere, Paged(3, 1, {0}), 1);
  }

  // A vget during the purge.
  function Late(): seq<Event> { Dies() + [Start(1, KEY)] + [Find(1, None)] }

  lemma FoundLate()
    ensures Initial(Nobody()) && CanRun(Nobody(), Late())
    ensures After(Nobody(), Late()) == Scene([Paged(3, 1, {0})], Purging(0, 0, None), Elsewhere, 1)
  {
    hide CanRun, After, Next, Enabled;
    Dying();
    LateFind();
    var p := Purging(0, 0, None);
    Snoc(Nobody(), Dies(), Scene([Paged(2, 0, {0})], p, Elsewhere, 1), Start(1, KEY),
         Scene([Paged(2, 0, {0})], p, Finding(KEY), 1));
    Snoc(Nobody(), Dies() + [Start(1, KEY)], Scene([Paged(2, 0, {0})], p, Finding(KEY), 1), Find(1, None),
         Scene([Paged(3, 1, {0})], p, Elsewhere, 1));
  }

  lemma LastResume(refs: int, active: nat)
    ensures var s := Scene([Paged(refs, active, {})], Purging(0, 0, None), Elsewhere, 1);
            && Enabled(s, Resume(0)) && (Next(s, Resume(0)).halted <==> refs != 2)
            && (refs == 2 ==> 0 in Next(s, Resume(0)).threads && Next(s, Resume(0)).threads[0] == Deleting(0))
  {
    assert Without([0], 0) == [] by { assert [0][1..] == []; }
    var y := Vnode(KEY, false, refs - 1, 0, active, [], {});
    assert FreeFrom(y, 0) == y;
  }

  // The vnode comes back from a vget during the purge, and the purge then finds a reference
  // too many.
  lemma GotWhilePurged()
    ensures var es := Late() + [CleanDone(0, 0)] + [Resume(0)];
            Initial(Nobody()) && CanRun(Nobody(), es) && After(Nobody(), es).halted
  {
    hide CanRun, After, Next, Enabled;
    FoundLate();
    var p := Purging(0, 0, None);
    CleanedStep(3, 1, p, Elsewhere);
    Snoc(Nobody(), Late(), Scene([Paged(3, 1, {0})], p, Elsewhere, 1), CleanDone(0, 0),
         Scene([Paged(3, 1, {})], p, Elsewhere, 1));
    LastResume(3, 1);
    var s := Scene([Paged(3, 1, {})], p, Elsewhere, 1);
    Snoc(Nobody(), Late() + [CleanDone(0, 0)], s, Resume(0), Next(s, Resume(0)));
  }

  lemma GiveBack()
    ensures var s := Scene([Paged(3, 1, {0})], Purging(0, 0, None), Elsewhere, 1);
            Enabled(s, Put(1, 0, false))
                && Next(s, Put(1, 0, false)) == Scene([Paged(2, 0, {0})], Purging(0, 0, None), Elsewhere, 1)
  {
    var p := Purging(0, 0, None);
    SceneSteps([Paged(3, 1, {0})], p, Elsewhere, p, Elsewhere, Paged(2, 0, {0}), 1);
    SceneSteps([Paged(2, 0, {0})], p, Elsewhere, p, Elsewhere, Paged(2, 0, {0}), 1);
  }

  // If that reference has been given back, the purge ends as it should.
  lemma GivenBackInTime()
    ensures var es := Late() + [Put(1, 0, false)] + [CleanDone(0, 0)] + [Resume(0)];
            && Initial(Nobody()) && CanRun(Nobody(), es)
            && var r := After(Nobody(), es); !r.halted && 0 in r.threads && r.threads[0] == Deleting(0)
  {
    hide CanRun, After, Next, Enabled;
    FoundLate();
    GiveBack();
    var p := Purging(0, 0, None);
    Snoc(Nobody(), Late(), Scene([Paged(3, 1, {0})], p, Elsewhere, 1), Put(1, 0, false),
         Scene([Paged(2, 0, {0})], p, Elsewhere, 1));
    CleanedStep(2, 0, p, Elsewhere);
    var es := Late() + [Put(1, 0, false)];
    Snoc(Nobody(), es, Scene([Paged(2, 0, {0})], p, Elsewhere, 1), CleanDone(0, 0),
         Scene([Paged(2, 0, {})], p, Elsewhere, 1));
    LastResume(2, 0);
    var s := Scene([Paged(2, 0, {})], p, Elsewhere, 1);
    Snoc(Nobody(), es + [CleanDone(0, 0)], s, Resume(0), Next(s, Resume(0)));
  }
}
