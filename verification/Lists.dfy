// Lists without repetition.
module Lists {
  ghost predicate NoDup<T>(l: seq<T>) { forall i, j :: 0 <= i < j < |l| ==> l[i] != l[j] }

  function Without<T(==)>(l: seq<T>, t: T): seq<T>
  {
    if l == [] then [] else if l[0] == t then l[1..] else [l[0]] + Without(l[1..], t)
  }

  lemma {:induction false} WithoutIs<T>(l: seq<T>, t: T)
    requires NoDup(l)
    ensures NoDup(Without(l, t)) && forall u :: u in Without(l, t) <==> u in l && u != t
    ensures if t in l then |Without(l, t)| == |l| - 1 else Without(l, t) == l
  {
    if l != [] {
      assert forall u :: u in l <==> u == l[0] || u in l[1..];
      assert l[0] !in l[1..];
      WithoutIs(l[1..], t);
      if l[0] != t && t !in l { assert [l[0]] + l[1..] == l; }
    }
  }
}
