/**
 The pattern compiler and the matcher of the line editor (user/bin/ed.c): compile fills
 the byte buffer expbuf, advance runs it against a line, execute looks for the leftmost
 place where it succeeds.
 */
module EdMachine {
  import opened Common
  import opened EdPattern

  const ESIZE: nat := 128
  const EOF: int := -1

  // The nodes are encoded at ep, followed by the end mark.
  ghost predicate Coded(buf: seq<int>, ep: nat, ns: seq<Node>)
  {
    && ep + |Encode(ns)| < |buf|
    && buf[ep..ep + |Encode(ns)|] == Encode(ns)
    && buf[ep + |Encode(ns)|] == CEOF
  }

  // What advance finds at the place of the next node.
  lemma Decoded(buf: seq<int>, ep: nat, ns: seq<Node>)
    requires Coded(buf, ep, ns) && AllWellFormed(ns)
    ensures ep < |buf| && (ns == [] ==> buf[ep] == CEOF)
    ensures ns != [] ==>
              var e := EncodeNode(ns[0]);
              && ep + |e| < |buf| && buf[ep..ep + |e|] == e && Coded(buf, ep + |e|, ns[1..]) && buf[ep] == e[0] != CEOF
              && (|e| > 1 ==> buf[ep + 1] == e[1])
  {
    hide EncodeNode, Encode;
    if ns == [] {
      EncodeNone();
    } else {
      assert WellFormed(ns[0]);
      SizeOf(ns[0]);
      EncodeCons(ns);
      SliceSplit(buf, ep, EncodeNode(ns[0]), Encode(ns[1..]));
    }
  }

  lemma EncodeNone()
    ensures Encode([]) == []
  {
  }

  lemma SliceSplit(buf: seq<int>, ep: nat, a: seq<int>, b: seq<int>)
    requires ep + |a| + |b| <= |buf| && buf[ep..ep + |a + b|] == a + b
    ensures buf[ep..ep + |a|] == a && buf[ep + |a|..ep + |a| + |b|] == b
    ensures forall k :: 0 <= k < |a| ==> buf[ep + k] == a[k]
  {
    var w := buf[ep..ep + |a + b|];
    assert buf[ep..ep + |a|] == w[..|a|] == a;
    assert buf[ep + |a|..ep + |a| + |b|] == w[|a|..] == b;
    assert forall k :: 0 <= k < |a| ==> buf[ep + k] == w[k];
  }

  // Reading a line, with its terminating NUL.
  function At(line: seq<int>, i: nat): int
    requires i <= |line|
  {
    if i < |line| then line[i] else 0
  }

  ghost function PrependAll(pre: seq<nat>, r: Option<seq<nat>>): Option<seq<nat>>
  {
    if r.None? then None else Some(pre + r.value)
  }

  // advance has run through the first |pre| nodes, which take the counts `pre`.
  ghost predicate RunThrough(ns: seq<Node>, line: seq<int>, alp: nat, pre: seq<nat>, lp: nat)
  {
    && |pre| <= |ns| && alp <= lp <= |line| && lp == alp + Sum(pre)
    && Run(ns, line, alp) == PrependAll(pre, Run(ns[|pre|..], line, lp))
  }

  lemma {:induction false} SumAppend(a: seq<nat>, n: nat)
    ensures Sum(a + [n]) == Sum(a) + n
  {
    if a == [] {
      assert [] + [n] == [n] && [n][1..] == [];
    } else {
      SumAppend(a[1..], n);
      assert (a + [n])[1..] == a[1..] + [n];
    }
  }

  lemma {:induction false} SumConcat(a: seq<nat>, b: seq<nat>)
    ensures Sum(a + b) == Sum(a) + Sum(b)
  {
    if a == [] {
      assert [] + b == b;
    } else {
      SumConcat(a[1..], b);
      assert (a + b)[1..] == a[1..] + b;
    }
  }

  // The opcode tells the kind of a node.
  lemma Opcode(n: Node)
    requires WellFormed(n)
    ensures var op := EncodeNode(n)[0];
            && (op == CCHR <==> n.atom.Chr? && !n.star) && (op == CCHR + 1 <==> n.atom.Chr? && n.star)
            && (op == CDOT <==> n.atom.Dot? && !n.star) && (op == CDOT + 1 <==> n.atom.Dot? && n.star)
            && (op == CCL <==> n.atom.Class? && !n.atom.negated && !n.star)
            && (op == CCL + 1 <==> n.atom.Class? && !n.atom.negated && n.star)
            && (op == NCCL <==> n.atom.Class? && n.atom.negated && !n.star)
            && (op == NCCL + 1 <==> n.atom.Class? && n.atom.negated && n.star)
            && (op == CBRA <==> n.atom.Open?) && (op == CKET <==> n.atom.Close?) && (op == CDOL <==> n.atom.EndOfLine?)
  {
  }

  // A class in the buffer, as cclass reads it.
  lemma ClassAt(buf: seq<int>, ep: nat, n: Node)
    requires n.atom.Class? && ep + |EncodeNode(n)| <= |buf| && buf[ep..ep + |EncodeNode(n)|] == EncodeNode(n)
    ensures ep + 1 < |buf| && buf[ep + 1] == |n.atom.chars| + 1
    ensures ep + 1 + buf[ep + 1] == ep + |EncodeNode(n)| <= |buf| && buf[ep + 2..ep + 1 + buf[ep + 1]] == n.atom.chars
  {
    var e := EncodeNode(n);
    assert buf[ep + 1] == buf[ep..ep + |e|][1] == e[1];
    assert buf[ep + 2..ep + |e|] == buf[ep..ep + |e|][2..] == e[2..];
  }

  // A node that is no bracket leaves the marks right.
  lemma MarksSkip(m: Marks, ns: seq<Node>, pre: seq<nat>, i: int, w: nat)
    requires |m.opens| == |m.closes| == NBRA && |pre| < |ns| && MarksRight(m, ns[..|pre|], pre, i)
    requires !IsBracket(ns[|pre|].atom)
    ensures MarksRight(m, ns[..|pre| + 1], pre + [w], i)
  {
    var ns', pre' := ns[..|pre| + 1], pre + [w];
    forall p | 0 <= p < |ns'| && ValidBracket(ns'[p].atom) ensures MarkOf(m, ns'[p].atom) == i + Sum(pre'[..p]) {
      assert ns'[p] == ns[..|pre|][p] && pre'[..p] == pre[..p];
    }
  }

  // A bracket, once marked, leaves the marks right.
  lemma MarksSet(m: Marks, m': Marks, ns: seq<Node>, pre: seq<nat>, i: int)
    requires |m.opens| == |m.closes| == |m'.opens| == |m'.closes| == NBRA && |pre| < |ns|
    requires MarksRight(m, ns[..|pre|], pre, i) && DistinctBrackets(ns)
    requires var a := ns[|pre|].atom; ValidBracket(a) && MarkOf(m', a) == i + Sum(pre) && MarksKept(m, m', [ns[|pre|]])
    ensures MarksRight(m', ns[..|pre| + 1], pre + [0], i)
    ensures MarksKept(m, m', ns)
  {
    var ns', pre' := ns[..|pre| + 1], pre + [0];
    forall p | 0 <= p < |ns'| && ValidBracket(ns'[p].atom) ensures MarkOf(m', ns'[p].atom) == i + Sum(pre'[..p]) {
      if p < |pre| {
        assert ns'[p] == ns[..|pre|][p] && pre'[..p] == pre[..p];
        assert !Mentions([ns[|pre|]], ns[p].atom);
      } else {
        assert pre'[..p] == pre;
      }
    }
    forall a | ValidBracket(a) && !Mentions(ns, a) ensures MarkOf(m', a) == MarkOf(m, a) {
      assert !Mentions([ns[|pre|]], a);
    }
  }

  // The marks of the first nodes and those of the rest make up the marks of the whole.
  lemma MarksJoin(m: Marks, m': Marks, ns: seq<Node>, pre: seq<nat>, c: seq<nat>, i: int)
    requires |m.opens| == |m.closes| == |m'.opens| == |m'.closes| == NBRA && |pre| + |c| == |ns|
    requires MarksRight(m, ns[..|pre|], pre, i) && DistinctBrackets(ns)
    requires MarksRight(m', ns[|pre|..], c, i + Sum(pre)) && MarksKept(m, m', ns[|pre|..])
    ensures MarksRight(m', ns, pre + c, i) && MarksKept(m, m', ns)
  {
    var rest := ns[|pre|..];
    forall p | 0 <= p < |ns| && ValidBracket(ns[p].atom) ensures MarkOf(m', ns[p].atom) == i + Sum((pre + c)[..p]) {
      if p < |pre| {
        assert (pre + c)[..p] == pre[..p] && ns[..|pre|][p] == ns[p];
        assert !Mentions(rest, ns[p].atom);
      } else {
        assert (pre + c)[..p] == pre + c[..p - |pre|] && rest[p - |pre|] == ns[p];
        SumConcat(pre, c[..p - |pre|]);
      }
    }
    KeptMore(m, m', ns, |pre|);
  }

  lemma KeptTwice(m: Marks, m': Marks, m'': Marks, ns: seq<Node>)
    requires |m.opens| == |m.closes| == |m'.opens| == |m'.closes| == |m''.opens| == |m''.closes| == NBRA
    requires MarksKept(m, m', ns) && MarksKept(m', m'', ns)
    ensures MarksKept(m, m'', ns)
  {
  }

  // Keeping all but the marks of some of the nodes.
  lemma KeptMore(m: Marks, m': Marks, ns: seq<Node>, d: nat)
    requires |m.opens| == |m.closes| == |m'.opens| == |m'.closes| == NBRA && d <= |ns| && MarksKept(m, m', ns[d..])
    ensures MarksKept(m, m', ns)
  {
    forall a | ValidBracket(a) && !Mentions(ns, a) ensures MarkOf(m', a) == MarkOf(m, a) {
      assert forall q :: 0 <= q < |ns[d..]| ==> ns[d..][q] == ns[d + q];
    }
  }

  lemma RunStep(ns: seq<Node>, line: seq<int>, alp: nat, pre: seq<nat>, lp: nat, w: nat)
    requires RunThrough(ns, line, alp, pre, lp) && |pre| < |ns| && lp + w <= |line|
    requires Run(ns[|pre|..], line, lp) == Prepend(w, Run(ns[|pre| + 1..], line, lp + w))
    ensures RunThrough(ns, line, alp, pre + [w], lp + w)
  {
    SumAppend(pre, w);
    var r := Run(ns[|pre| + 1..], line, lp + w);
    if r.Some? { assert pre + ([w] + r.value) == pre + [w] + r.value; }
  }

  ghost function PrependChars(cs: seq<int>, r: Option<seq<int>>): Option<seq<int>>
  {
    if r.None? then None else Some(cs + r.value)
  }

  ghost predicate StartsNegated(t: seq<int>) { t != [] && t[0] == CARET }

  lemma TextAfter(t: seq<int>, neg: bool, n: nat)
    requires (neg ==> t != []) && n < |t[if neg then 1 else 0..]|
    ensures t[if neg then 1 else 0..][n + 1..] == t[(if neg then 1 else 0) + n + 1..]
  {
  }

  // The buffer is buf0 up to ep0 and then holds `code`.
  ghost predicate Written(buf: seq<int>, buf0: seq<int>, ep0: nat, code: seq<int>)
  {
    |buf| == |buf0| && ep0 + |code| <= |buf| && buf[..ep0 + |code|] == buf0[..ep0] + code
  }

  lemma HeaderWritten(buf: seq<int>, buf0: seq<int>, ep0: nat, op: int)
    requires |buf| == |buf0| && ep0 + 2 <= |buf| && buf == buf0[ep0 := op][ep0 + 1 := 0]
    ensures Written(buf, buf0, ep0, [op, 0] + [])
  {
    assert buf[..ep0 + 2] == buf0[..ep0] + [op, 0];
    assert [op, 0] + [] == [op, 0];
  }

  lemma WriteNext(buf: seq<int>, buf0: seq<int>, ep0: nat, op: int, cnt: int, cs: seq<int>, c: int)
    requires Written(buf, buf0, ep0, [op, cnt] + cs) && ep0 + 2 + |cs| < |buf|
    ensures Written(buf[ep0 + 2 + |cs| := c], buf0, ep0, [op, cnt] + (cs + [c]))
  {
    var n := ep0 + 2 + |cs|;
    assert buf[n := c][..n + 1] == buf[..n] + [c];
    assert [op, cnt] + (cs + [c]) == [op, cnt] + cs + [c];
    assert buf0[..ep0] + ([op, cnt] + cs) + [c] == buf0[..ep0] + ([op, cnt] + cs + [c]);
  }

  lemma CountWritten(buf: seq<int>, buf0: seq<int>, ep0: nat, op: int, cs: seq<int>, cnt: int)
    requires Written(buf, buf0, ep0, [op, 0] + cs)
    ensures ep0 + 2 + |cs| <= |buf| && buf[ep0 + 1 := cnt][..ep0 + 2 + |cs|] == buf0[..ep0] + ([op, cnt] + cs)
  {
    var n := ep0 + 2 + |cs|;
    assert buf[ep0 + 1 := cnt][..n] == buf[..n][ep0 + 1 := cnt];
    assert (buf0[..ep0] + ([op, 0] + cs))[ep0 + 1 := cnt] == buf0[..ep0] + ([op, cnt] + cs);
  }

  // One more character of a class; u[|cs|] is neither a newline nor the closing bracket.
  lemma ClassStep(u: seq<int>, cs: seq<int>)
    requires |cs| < |u| && u[|cs|] != NEWLINE && (cs != [] ==> u[|cs|] != RBRACK)
    requires ClassChars(u, true) == PrependChars(cs, ClassChars(u[|cs|..], cs == []))
    ensures var cs' := cs + [u[|cs|]]; ClassChars(u, true) == PrependChars(cs', ClassChars(u[|cs'|..], false))
  {
    var r := ClassChars(u[|cs| + 1..], false);
    assert u[|cs|..][1..] == u[|cs| + 1..];
    if r.Some? { assert cs + ([u[|cs|]] + r.value) == cs + [u[|cs|]] + r.value; }
  }

  lemma ClassNewline(u: seq<int>, cs: seq<int>)
    requires |cs| < |u| && u[|cs|] == NEWLINE
    requires ClassChars(u, true) == PrependChars(cs, ClassChars(u[|cs|..], cs == []))
    ensures ClassChars(u, true).None?
  {
  }

  lemma ClassUnclosed(u: seq<int>, cs: seq<int>)
    requires |cs| == |u| && ClassChars(u, true) == PrependChars(cs, ClassChars(u[|cs|..], false))
    ensures ClassChars(u, true).None?
  {
  }

  lemma ClassCode(negated: bool, cs: seq<int>)
    ensures EncodeNode(Node(Class(negated, cs), false)) == [if negated then NCCL else CCL, |cs| + 1] + cs
  {
  }

  lemma ClassStart(u: seq<int>)
    ensures u == [] ==> ClassChars(u, true).None?
    ensures u[0..] == u && ClassChars(u, true) == PrependChars([], ClassChars(u[0..], true))
  {
    var r := ClassChars(u, true);
    if r.Some? { assert [] + r.value == r.value; }
  }

  lemma ClassLonger(u: seq<int>, cs: seq<int>)
    requires |cs| <= |u| && ClassChars(u, true) == PrependChars(cs, ClassChars(u[|cs|..], false))
    ensures ClassChars(u, true).None? || |ClassChars(u, true).value| >= |cs|
  {
  }

  lemma ClassDone(u: seq<int>, cs: seq<int>)
    requires |cs| < |u| && u[|cs|] == RBRACK && ClassChars(u, true) == PrependChars(cs, ClassChars(u[|cs|..], false))
    ensures ClassChars(u, true) == Some(cs)
  {
    assert cs + [] == cs;
  }

  datatype CompileResult = Compiled | Reused | InError | StarOnBracket

  // compile has turned a first part of the body into the nodes `done` and, last, `prev`;
  // what the rest of the text denotes completes the pattern.
  ghost predicate Alive(body: seq<int>, eof: int, rest: seq<int>, nbra: nat, stack: seq<nat>, done: seq<Node>,
                        prev: Option<Node>)
  {
    && Parse(body, eof, 0, [], None) == Append(done, Parse(rest, eof, nbra, stack, prev))
    && Positive(rest) && StackFits(nbra, stack)
    && (prev.None? ==> done == [] && (rest != [] ==> rest[0] != STARCH))
    && (prev.Some? ==> WellFormed(prev.value) && (prev.value.atom.EndOfLine? ==> rest != [] && rest[0] == eof))
  }

  ghost predicate BufferIs(buf: seq<int>, ep: nat, lastep: nat, done: seq<Node>, prev: Option<Node>)
  {
    && ep <= |buf| && buf[..ep] == Encode(done + AsList(prev))
    && (prev.Some? ==> lastep == |Encode(done)|)
  }

  // `*lastep |= STAR`
  function SetStar(op: int): int { if op % 2 == 0 then op + 1 else op }

  // Text that ends before its delimiter denotes nothing.
  lemma RestEmpty(body: seq<int>, eof: int, nbra: nat, stack: seq<nat>, done: seq<Node>, prev: Option<Node>,
                  alive: bool)
    requires alive ==> Alive(body, eof, [], nbra, stack, done, prev)
    ensures alive ==> Parse(body, eof, 0, [], None).None?
  {
  }

  // The text of a pattern after a leading caret.
  ghost function Unanchored(t: seq<int>): seq<int> { if t != [] && t[0] == CARET then t[1..] else t }

  lemma PatternOf(t: seq<int>, eof: int)
    ensures var body := Unanchored(t); var ns := Parse(body, eof, 0, [], None);
            ParsePattern(t, eof) ==
              if (body != [] && body[0] == STARCH) || ns.None? then None
              else Some(Pattern(t != [] && t[0] == CARET, ns.value))
  {
  }

  lemma BodyStart(body: seq<int>, eof: int, buf: seq<int>)
    requires Positive(body) && (body != [] ==> body[0] != STARCH)
    ensures Alive(body, eof, body, 0, [], [], None) && BufferIs(buf, 0, 0, [], None)
  {
    var r := Parse(body, eof, 0, [], None);
    if r.Some? { assert [] + r.value == r.value; }
  }

  // The code of the whole pattern is at least as long as the code of its first nodes.
  lemma TooLong(body: seq<int>, eof: int, rest: seq<int>, nbra: nat, stack: seq<nat>, done: seq<Node>,
                prev: Option<Node>, buf: seq<int>, ep: nat, lastep: nat)
    requires Alive(body, eof, rest, nbra, stack, done, prev) && BufferIs(buf, ep, lastep, done, prev)
    ensures var r := Parse(body, eof, 0, [], None);
            r.None? || |Encode(r.value)| >= ep
  {
    var r := Parse(rest, eof, nbra, stack, prev);
    if r.Some? {
      ParseLength(rest, eof, nbra, stack, prev);
      EncodeConcat(done, r.value);
      EncodeConcat(done, AsList(prev));
    }
  }

  // At the delimiter the buffer holds the whole pattern.
  lemma BodyEnd(body: seq<int>, eof: int, rest: seq<int>, nbra: nat, stack: seq<nat>, done: seq<Node>,
                prev: Option<Node>, buf: seq<int>, ep: nat, lastep: nat)
    requires Alive(body, eof, rest, nbra, stack, done, prev) && BufferIs(buf, ep, lastep, done, prev)
    requires rest != [] && rest[0] == eof && ep < |buf|
    ensures var r := Parse(body, eof, 0, [], None);
            r.Some? && |Encode(r.value)| == ep && Coded(buf[ep := CEOF], 0, r.value)
  {
    assert buf[ep := CEOF][0..ep] == buf[..ep];
  }

  // A star after a bracket is an error; after any other node it changes that node.
  lemma AtStar(body: seq<int>, eof: int, rest: seq<int>, nbra: nat, stack: seq<nat>, done: seq<Node>,
               prev: Option<Node>, buf: seq<int>, ep: nat, lastep: nat)
    requires Alive(body, eof, rest, nbra, stack, done, prev) && BufferIs(buf, ep, lastep, done, prev)
    requires rest != [] && rest[0] == STARCH != eof
    ensures prev.Some? && lastep < ep <= |buf|
    ensures buf[lastep] == CBRA || buf[lastep] == CKET <==> IsBracket(prev.value.atom)
    ensures IsBracket(prev.value.atom) ==> Parse(body, eof, 0, [], None).None?
    ensures !IsBracket(prev.value.atom) ==>
              var n := Some(prev.value.(star := true));
              && Alive(body, eof, rest[1..], nbra, stack, done, n)
              && BufferIs(buf[lastep := SetStar(buf[lastep])], ep, lastep, done, n)
  {
    var n := prev.value;
    assert prev == Some(n);
    EncodeAppend(done, n);
    EncodeAppend(done, n.(star := true));
    SizeOf(n);
    Opcode(n);
    assert buf[lastep] == buf[..ep][lastep] == EncodeNode(n)[0];
    if !IsBracket(n.atom) {
      StarredCode(n);
      var buf' := buf[lastep := SetStar(buf[lastep])];
      assert buf'[..ep] == buf[..ep][lastep := SetStar(buf[lastep])];
      assert buf[..ep][lastep := SetStar(buf[lastep])] == Encode(done) + EncodeNode(n)[0 := SetStar(buf[lastep])];
    }
  }

  lemma StarredCode(n: Node)
    requires WellFormed(n) && Consumes(n.atom)
    ensures EncodeNode(n.(star := true)) == EncodeNode(n)[0 := SetStar(EncodeNode(n)[0])]
  {
  }

  lemma AppendTwice(a: seq<Node>, b: seq<Node>, r: Option<seq<Node>>)
    ensures Append(a, Append(b, r)) == Append(a + b, r)
  {
    if r.Some? { assert a + (b + r.value) == a + b + r.value; }
  }

  // One atom more: the next token of the text and its code.
  lemma AtomStep(body: seq<int>, eof: int, rest: seq<int>, nbra: nat, stack: seq<nat>, done: seq<Node>,
                 prev: Option<Node>, buf: seq<int>, ep: nat, lastep: nat, buf': seq<int>, next: nat)
    requires Alive(body, eof, rest, nbra, stack, done, prev) && BufferIs(buf, ep, lastep, done, prev)
    requires rest != [] && rest[0] != eof && rest[0] != STARCH && NextAtom(rest, eof, nbra, stack).Some?
    requires var k := NextAtom(rest, eof, nbra, stack).value;
             next <= |buf'| && buf'[..next] == buf[..ep] + EncodeNode(Node(k.atom, false))
    ensures var k := NextAtom(rest, eof, nbra, stack).value; var n := Node(k.atom, false);
            && Alive(body, eof, rest[k.len..], k.nbra, k.stack, done + AsList(prev), Some(n))
            && BufferIs(buf', next, ep, done + AsList(prev), Some(n))
  {
    hide NextAtom, EncodeNode;
    var k := NextAtom(rest, eof, nbra, stack).value;
    var n := Node(k.atom, false);
    NextAtomFits(rest, eof, nbra, stack);
    AppendTwice(done, AsList(prev), Parse(rest[k.len..], eof, k.nbra, k.stack, Some(n)));
    EncodeAppend(done + AsList(prev), n);
    EncodeLength(buf, ep, lastep, done, prev);
  }

  lemma EncodeLength(buf: seq<int>, ep: nat, lastep: nat, done: seq<Node>, prev: Option<Node>)
    requires BufferIs(buf, ep, lastep, done, prev)
    ensures |Encode(done + AsList(prev))| == ep
  {
  }

  // A token in error, or one whose code does not fit, ends in no pattern that fits.
  lemma AtomBad(body: seq<int>, eof: int, rest: seq<int>, nbra: nat, stack: seq<nat>, done: seq<Node>,
                prev: Option<Node>, buf: seq<int>, ep: nat, lastep: nat)
    requires Alive(body, eof, rest, nbra, stack, done, prev) && BufferIs(buf, ep, lastep, done, prev)
    requires rest != [] && rest[0] != eof && rest[0] != STARCH
    ensures var k, r := NextAtom(rest, eof, nbra, stack), Parse(body, eof, 0, [], None);
            && (k.None? ==> r.None?)
            && (k.Some? && r.Some? ==> |Encode(r.value)| >= ep + |EncodeNode(Node(k.value.atom, false))|)
  {
    hide NextAtom, EncodeNode;
    var k := NextAtom(rest, eof, nbra, stack);
    if k.Some? {
      var n := Node(k.value.atom, false);
      var r := Parse(rest[k.value.len..], eof, k.value.nbra, k.value.stack, Some(n));
      AppendTwice(done, AsList(prev), r);
      if r.Some? {
        ParseLength(rest[k.value.len..], eof, k.value.nbra, k.value.stack, Some(n));
        EncodeConcat(done + AsList(prev), r.value);
        EncodeAppend([], n);
        assert [] + [n] == AsList(Some(n));
        EncodeLength(buf, ep, lastep, done, prev);
      }
    }
  }

  // What the class case does to the text and to the buffer.
  ghost predicate ClassCompiled(t: seq<int>, rest: seq<int>, buf: seq<int>, buf': seq<int>, ep: nat, next: nat,
                                bad: bool)
  {
    var neg := StartsNegated(t);
    var cs := ClassChars(t[if neg then 1 else 0..], true);
    && ep <= |buf| && next <= |buf'|
    && (bad ==> cs.None? || ep + 2 + |cs.value| >= ESIZE)
    && (!bad ==>
          && cs.Some? && (if neg then 1 else 0) + |cs.value| + 1 <= |t|
          && rest == t[(if neg then 1 else 0) + |cs.value| + 1..]
          && buf'[..next] == buf[..ep] + EncodeNode(Node(Class(neg, cs.value), false)))
  }

  lemma ClassFinished(t: seq<int>, rest: seq<int>, buf: seq<int>, buf': seq<int>, ep: nat, next: nat, neg: bool,
                      cs: seq<int>)
    requires neg == StartsNegated(t) && ClassChars(t[if neg then 1 else 0..], true) == Some(cs)
    requires |cs| < |t[if neg then 1 else 0..]| && rest == t[if neg then 1 else 0..][|cs| + 1..]
    requires ep <= |buf| && next <= |buf'| && buf'[..next] == buf[..ep] + ([if neg then NCCL else CCL, |cs| + 1] + cs)
    ensures ClassCompiled(t, rest, buf, buf', ep, next, false)
  {
    hide EncodeNode, ClassChars;
    ClassCode(neg, cs);
    TextAfter(t, neg, |cs|);
  }

  lemma ClassFailed(t: seq<int>, rest: seq<int>, buf: seq<int>, buf': seq<int>, ep: nat, next: nat)
    requires var cs := ClassChars(t[if StartsNegated(t) then 1 else 0..], true);
             cs.None? || ep + 2 + |cs.value| >= ESIZE
    requires ep <= |buf| && next <= |buf'|
    ensures ClassCompiled(t, rest, buf, buf', ep, next, true)
  {
  }

  // A token of one character whose code is `code`.
  lemma PlainAtom(r: seq<int>, rest: seq<int>, eof: int, nbra: nat, stack: seq<nat>, buf: seq<int>, buf': seq<int>,
                  ep: nat, a: Atom, code: seq<int>)
    requires r != [] && rest == r[1..] && NextAtom(r, eof, nbra, stack) == Some(Token(a, 1, nbra, stack))
    requires EncodeNode(Node(a, false)) == code && ep + |code| <= |buf'| && ep <= |buf|
    requires buf'[..ep + |code|] == buf[..ep] + code
    ensures AtomCompiled(NextAtom(r, eof, nbra, stack), r, rest, buf, buf', ep, ep + |code|, nbra, stack, false)
  {
  }

  lemma TokenOf(r: seq<int>, eof: int, nbra: nat, stack: seq<nat>)
    requires r != []
    ensures var k, c := NextAtom(r, eof, nbra, stack), r[0];
            && (c == NEWLINE ==> k.None?)
            && (c == DOTCH ==> k == Some(Token(Dot, 1, nbra, stack)))
            && (c == DOLLAR && |r| > 1 && r[1] == eof ==> k == Some(Token(EndOfLine, 1, nbra, stack)))
            && (c == DOLLAR && !(|r| > 1 && r[1] == eof) ==> k == Some(Token(Chr(c), 1, nbra, stack)))
            && (c !in {BSLASH, DOTCH, NEWLINE, DOLLAR, LBRACK} ==> k == Some(Token(Chr(c), 1, nbra, stack)))
    ensures EncodeNode(Node(Dot, false)) == [CDOT] && EncodeNode(Node(EndOfLine, false)) == [CDOL]
    ensures EncodeNode(Node(Chr(r[0]), false)) == [CCHR, r[0]]
  {
  }

  lemma BadToken(k: Option<Token>, r: seq<int>, rest: seq<int>, buf: seq<int>, buf': seq<int>, ep: nat, next: nat,
                 nbra: nat, stack: seq<nat>)
    requires k.None? && ep <= |buf| && next <= |buf'|
    ensures AtomCompiled(k, r, rest, buf, buf', ep, next, nbra, stack, true)
  {
  }

  // What compile does with token k at the head of text r.
  ghost predicate AtomCompiled(k: Option<Token>, r: seq<int>, rest: seq<int>, buf: seq<int>, buf': seq<int>, ep: nat,
                               next: nat, nbra: nat, stack: seq<nat>, bad: bool)
  {
    && ep <= |buf| && next <= |buf'|
    && (bad ==> k.None? || ep + |EncodeNode(Node(k.value.atom, false))| >= ESIZE)
    && (!bad && k.None? ==> rest == [])
    && (!bad && k.Some? ==>
          && k.value.len <= |r| && rest == r[k.value.len..] && nbra == k.value.nbra && stack == k.value.stack
          && buf'[..next] == buf[..ep] + EncodeNode(Node(k.value.atom, false)))
  }

  lemma ClassAtom(r: seq<int>, rest: seq<int>, eof: int, nbra: nat, stack: seq<nat>, buf: seq<int>, buf': seq<int>,
                  ep: nat, next: nat, bad: bool)
    requires r != [] && r[0] == LBRACK && ClassCompiled(r[1..], rest, buf, buf', ep, next, bad)
    ensures AtomCompiled(NextAtom(r, eof, nbra, stack), r, rest, buf, buf', ep, next, nbra, stack, bad)
  {
    hide EncodeNode, ClassChars;
    var t := r[1..];
    var neg := StartsNegated(t);
    var from := if neg then 2 else 1;
    assert r[from..] == t[if neg then 1 else 0..];
    var cs := ClassChars(r[from..], true);
    if cs.Some? {
      ClassCode(neg, cs.value);
      if !bad { assert r[from + |cs.value| + 1..] == t[from + |cs.value|..]; }
    }
  }

  lemma {:induction false} EncodeConcat(a: seq<Node>, b: seq<Node>)
    ensures Encode(a + b) == Encode(a) + Encode(b)
  {
    hide Encode, EncodeNode;
    if b == [] {
      EncodeNone();
      assert a + b == a && Encode(a) + [] == Encode(a);
    } else {
      var c, n := b[..|b| - 1], b[|b| - 1];
      assert b == c + [n];
      Regrouped(a, c, [n]);
      EncodeConcat(a, c);
      EncodeAppend(c, n);
      EncodeAppend(a + c, n);
      Regrouped(Encode(a), Encode(c), EncodeNode(n));
    }
  }

  lemma Regrouped<T>(a: seq<T>, b: seq<T>, c: seq<T>)
    ensures a + (b + c) == a + b + c
  {
  }

  lemma {:induction false} ParseLength(t: seq<int>, eof: int, nbra: nat, stack: seq<nat>, prev: Option<Node>)
    requires Parse(t, eof, nbra, stack, prev).Some?
    ensures |Encode(Parse(t, eof, nbra, stack, prev).value)| >= |Encode(AsList(prev))|
    decreases |t|
  {
    if t[0] == eof {
    } else if t[0] == STARCH {
      ParseLength(t[1..], eof, nbra, stack, Some(prev.value.(star := true)));
      SameLength(prev.value);
    } else {
      var k := NextAtom(t, eof, nbra, stack).value;
      EncodeConcat(AsList(prev), Parse(t[k.len..], eof, k.nbra, k.stack, Some(Node(k.atom, false))).value);
    }
  }

  lemma SameLength(n: Node)
    ensures |Encode([n.(star := true)])| == |Encode([n])|
  {
    EncodeAppend([], n);
    EncodeAppend([], n.(star := true));
    assert [] + [n] == [n] && [] + [n.(star := true)] == [n.(star := true)];
  }

  class Ed {
    const expbuf: array<int>
    const braslist: array<int>
    const braelist: array<int>
    var circfl: bool
    var loc1: int
    var loc2: int
    const input: seq<int>               // what getchar reads
    var pos: nat
    var peekc: int

    ghost predicate Valid()
      reads this
    {
      && expbuf.Length == ESIZE + 4 && braslist.Length == braelist.Length == NBRA
      && expbuf != braslist && expbuf != braelist && braslist != braelist
    }

    ghost function MarksNow(): Marks
      reads braslist, braelist
    {
      Marks(braslist[..], braelist[..])
    }

    ghost predicate InputOk()
      reads this
    {
      pos <= |input| && Positive(input) && peekc >= EOF && (peekc == EOF ==> pos == |input|)
    }

    // The text that getchar has yet to deliver.
    ghost function Rest(): seq<int>
      reads this
      requires pos <= |input|
    {
      (if peekc > 0 then [peekc] else []) + input[pos..]
    }

    // getchar
    method GetChar() returns (c: int)
      requires InputOk()
      modifies this`pos, this`peekc
      ensures InputOk() && peekc == 0
      ensures old(Rest()) == [] ==> c == EOF && Rest() == []
      ensures old(Rest()) != [] ==> c > 0 && c == old(Rest())[0] && Rest() == old(Rest())[1..]
    {
      if peekc != 0 {
        c, peekc := peekc, 0;
      } else if pos < |input| {
        c := input[pos];
        pos := pos + 1;
      } else {
        c := EOF;
      }
    }

    // The loop of compile over the characters of a class, of which c0 is the first.
    method ClassBody(ep0: nat, c0: int, ghost u: seq<int>, ghost op: int, ghost buf0: seq<int>)
      returns (ep: nat, cclcnt: nat, bad: bool, ghost cs: seq<int>)
      requires Valid() && InputOk() && ep0 < ESIZE && peekc == 0 && Written(expbuf[..], buf0, ep0, [op, 0] + [])
      requires if c0 == EOF then u == [] && Rest() == [] else u != [] && u[0] == c0 > 0 && u[1..] == Rest()
      modifies expbuf, this`pos, this`peekc
      ensures InputOk() && peekc == 0 && ep0 < ep <= ESIZE + 3
      ensures bad ==> ClassChars(u, true).None? || ep0 + 2 + |ClassChars(u, true).value| >= ESIZE
      ensures !bad ==> ClassChars(u, true) == Some(cs) && |cs| < |u| && Rest() == u[|cs| + 1..]
      ensures !bad ==> Written(expbuf[..], buf0, ep0, [op, 0] + cs) && ep == ep0 + 2 + |cs| && cclcnt == |cs| + 1
    {
      hide Encode, EncodeNode, ClassChars, PrependChars, Written;
      var c := c0;
      ep, cclcnt, bad := ep0 + 2, 1, false;
      cs := [];
      ghost var dead := c == EOF;
      ClassStart(u);
      while true
        invariant InputOk() && peekc == 0 && ep == ep0 + 2 + |cs| < ESIZE + 2 && cclcnt == 1 + |cs|
        invariant cs != [] ==> ep < ESIZE && c != RBRACK
        invariant Written(expbuf[..], buf0, ep0, [op, 0] + cs)
        invariant dead ==> c == EOF && Rest() == [] && ClassChars(u, true).None?
        invariant !dead ==> |cs| < |u| && u[|cs|] == c > 0 && u[|cs| + 1..] == Rest()
        invariant !dead ==> ClassChars(u, true) == PrependChars(cs, ClassChars(u[|cs|..], cs == []))
        decreases ESIZE + 4 - ep
      {
        if c == NEWLINE {
          ClassNewline(u, cs);
          bad := true;
          return;
        }
        WriteNext(expbuf[..], buf0, ep0, op, 0, cs, c);
        ghost var buf := expbuf[..];
        expbuf[ep] := c;
        assert expbuf[..] == buf[ep := c];
        ep, cclcnt := ep + 1, cclcnt + 1;
        if !dead { ClassStep(u, cs); }
        cs := cs + [c];
        if ep >= ESIZE {
          if !dead { ClassLonger(u, cs); }
          bad := true;
          return;
        }
        c := GetChar();
        if c == EOF && !dead { ClassUnclosed(u, cs); }
        dead := dead || c == EOF;
        if c == RBRACK {
          ClassDone(u, cs);
          return;
        }
      }
    }

    // The start of a class: its code, and its first character.
    method ClassHead(ep0: nat) returns (c: int)
      requires Valid() && InputOk() && ep0 < ESIZE && peekc == 0
      modifies expbuf, this`pos, this`peekc
      ensures InputOk() && peekc == 0
      ensures Written(expbuf[..], old(expbuf[..]), ep0, [if StartsNegated(old(Rest())) then NCCL else CCL, 0] + [])
      ensures var u := old(Rest())[if StartsNegated(old(Rest())) then 1 else 0..];
              if c == EOF then u == [] && Rest() == [] else u != [] && u[0] == c > 0 && u[1..] == Rest()
    {
      hide Written;
      ghost var buf0, t := expbuf[..], Rest();
      expbuf[ep0] := CCL;
      expbuf[ep0 + 1] := 0;
      c := GetChar();
      if c == CARET {
        c := GetChar();
        expbuf[ep0] := NCCL;
      }
      HeaderWritten(expbuf[..], buf0, ep0, if StartsNegated(t) then NCCL else CCL);
    }

    // The case of compile for a class, after its opening bracket has been read.
    method CompileClass(ep0: nat) returns (ep: nat, bad: bool)
      requires Valid() && InputOk() && ep0 < ESIZE && peekc == 0
      modifies expbuf, this`pos, this`peekc
      ensures InputOk() && peekc == 0 && ep0 < ep <= ESIZE + 3
      ensures ClassCompiled(old(Rest()), Rest(), old(expbuf[..]), expbuf[..], ep0, ep, bad)
    {
      hide Encode, EncodeNode, ClassChars, Written, ClassCompiled;
      ghost var t, buf0 := Rest(), expbuf[..];
      ghost var neg := StartsNegated(t);
      ghost var u, op := t[if neg then 1 else 0..], if neg then NCCL else CCL;
      var c := ClassHead(ep0);
      var cclcnt;
      ghost var cs;
      ep, cclcnt, bad, cs := ClassBody(ep0, c, u, op, buf0);
      if !bad {
        CountWritten(expbuf[..], buf0, ep0, op, cs, cclcnt);
        ghost var buf := expbuf[..];
        expbuf[ep0 + 1] := cclcnt;
        assert expbuf[..] == buf[ep0 + 1 := cclcnt];
        ClassFinished(t, Rest(), buf0, expbuf[..], ep0, ep, neg, cs);
      } else {
        ClassFailed(t, Rest(), buf0, expbuf[..], ep0, ep);
      }
    }

    // The escapes: brackets and quoted characters.
    method CompileEscape(eof: int, ep: nat, nbra0: nat, bracket0: seq<nat>, ghost r: seq<int>)
      returns (nbra: nat, bracket: seq<nat>, bad: bool)
      requires Valid() && InputOk() && ep < ESIZE && peekc == 0 && StackFits(nbra0, bracket0) && r == [BSLASH] + Rest()
      modifies expbuf, this`pos, this`peekc
      ensures InputOk() && StackFits(nbra, bracket)
      ensures AtomCompiled(NextAtom(r, eof, nbra0, bracket0), r, Rest(), old(expbuf[..]), expbuf[..], ep, ep + 2, nbra,
                           bracket, bad)
    {
      nbra, bracket, bad := nbra0, bracket0, false;
      ghost var buf0 := expbuf[..];
      var d := GetChar();
      assert r[1..] == old(Rest());
      if d == LPAREN {
        if nbra >= NBRA {
          bad := true;
          return;
        }
        bracket := [nbra] + bracket;
        expbuf[ep] := CBRA;
        expbuf[ep + 1] := nbra;
        nbra := nbra + 1;
      } else if d == RPAREN {
        if bracket == [] {
          bad := true;
          return;
        }
        expbuf[ep] := CKET;
        expbuf[ep + 1] := bracket[0];
        bracket := bracket[1..];
      } else {
        expbuf[ep] := CCHR;
        if d == NEWLINE {
          bad := true;
          return;
        }
        expbuf[ep + 1] := d;
      }
      assert expbuf[..][..ep + 2] == buf0[..ep] + [expbuf[ep], expbuf[ep + 1]];
    }

    // The last case: the character itself, or the end of the line for a dollar before the
    // delimiter.
    method CompilePlain(eof: int, c: int, ep: nat, ghost nbra: nat, ghost bracket: seq<nat>, ghost r: seq<int>)
      returns (next: nat)
      requires Valid() && InputOk() && ep < ESIZE && peekc == 0 && StackFits(nbra, bracket) && eof > 0
      requires if c == EOF then Rest() == [] && r == [] else r == [c] + Rest() && c != eof && c != STARCH && c > 0
      requires c !in {BSLASH, DOTCH, NEWLINE, LBRACK}
      modifies expbuf, this`pos, this`peekc
      ensures InputOk() && ep < next <= ESIZE + 3
      ensures r == [] ==> Rest() == []
      ensures r != [] ==>
                AtomCompiled(NextAtom(r, eof, nbra, bracket), r, Rest(), old(expbuf[..]), expbuf[..], ep, next, nbra,
                             bracket, false)
    {
      hide Encode, EncodeNode, AtomCompiled, NextAtom;
      ghost var buf0 := expbuf[..];
      if r != [] { TokenOf(r, eof, nbra, bracket); }
      var literal := true;
      if c == DOLLAR {
        var d := GetChar();
        peekc := d;
        literal := d != eof;
      }
      assert r != [] ==> Rest() == r[1..];
      if literal {
        expbuf[ep] := CCHR;
        expbuf[ep + 1] := c;
        next := ep + 2;
        assert expbuf[..][..next] == buf0[..ep] + [CCHR, c];
        if r != [] { PlainAtom(r, Rest(), eof, nbra, bracket, buf0, expbuf[..], ep, Chr(c), [CCHR, c]); }
      } else {
        expbuf[ep] := CDOL;
        next := ep + 1;
        assert expbuf[..][..next] == buf0[..ep] + [CDOL];
        PlainAtom(r, Rest(), eof, nbra, bracket, buf0, expbuf[..], ep, EndOfLine, [CDOL]);
      }
    }

    // The cases of compile for a character that is neither the delimiter nor a star.
    method CompileAtom(eof: int, c: int, ep: nat, nbra0: nat, bracket0: seq<nat>, ghost r: seq<int>)
      returns (next: nat, nbra: nat, bracket: seq<nat>, bad: bool)
      requires Valid() && InputOk() && ep < ESIZE && peekc == 0 && StackFits(nbra0, bracket0) && eof > 0
      requires if c == EOF then Rest() == [] && r == [] else r == [c] + Rest() && c != eof && c != STARCH && c > 0
      modifies expbuf, this`pos, this`peekc
      ensures InputOk() && next <= ESIZE + 3 && (!bad ==> next > ep) && StackFits(nbra, bracket)
      ensures r == [] ==> !bad && Rest() == []
      ensures r != [] ==>
                AtomCompiled(NextAtom(r, eof, nbra0, bracket0), r, Rest(), old(expbuf[..]), expbuf[..], ep, next, nbra,
                             bracket, bad)
    {
      hide ClassChars, Encode, EncodeNode, ClassCompiled, AtomCompiled, NextAtom;
      nbra, bracket, next, bad := nbra0, bracket0, ep, false;
      ghost var buf0 := expbuf[..];
      if r != [] { TokenOf(r, eof, nbra0, bracket0); }
      if c == BSLASH {
        nbra, bracket, bad := CompileEscape(eof, ep, nbra0, bracket0, r);
        next := ep + 2;
      } else if c == DOTCH {
        expbuf[ep] := CDOT;
        next := ep + 1;
        assert expbuf[..][..next] == buf0[..ep] + [CDOT];
        PlainAtom(r, Rest(), eof, nbra0, bracket0, buf0, expbuf[..], ep, Dot, [CDOT]);
      } else if c == NEWLINE {
        bad := true;
        BadToken(NextAtom(r, eof, nbra0, bracket0), r, Rest(), buf0, buf0, ep, ep, nbra, bracket);
      } else if c == LBRACK {
        assert r[1..] == Rest();
        next, bad := CompileClass(ep);
        ClassAtom(r, Rest(), eof, nbra0, bracket0, buf0, expbuf[..], ep, next, bad);
      } else {
        next := CompilePlain(eof, c, ep, nbra0, bracket0, r);
      }
    }

    // compile. It succeeds exactly on the texts that denote a pattern whose code fits the
    // buffer, and then the buffer holds that code; an empty text keeps the last pattern.
    method Compile(eof: int) returns (res: CompileResult)
      requires Valid() && InputOk() && eof > 0
      modifies expbuf, this`pos, this`peekc, this`circfl
      ensures var t := old(Rest());
              if t != [] && t[0] == eof then
                && res == (if old(expbuf[0]) == 0 then InError else Reused)
                && expbuf[..] == old(expbuf[..]) && circfl == old(circfl)
              else
                && res != Reused
                && (res == Compiled <==>
                    ParsePattern(t, eof).Some? && |Encode(ParsePattern(t, eof).value.nodes)| < ESIZE)
                && (res == Compiled ==>
                    var p := ParsePattern(t, eof).value; circfl == p.anchored && Coded(expbuf[..], 0, p.nodes))
                && (res == InError ==> expbuf[0] == 0)
    {
      hide Encode, EncodeNode, Parse, Coded, ParsePattern, Unanchored;
      ghost var t := Rest();
      var c := GetChar();
      if c == eof {
        return if expbuf[0] == 0 then InError else Reused;
      }
      c := ReadAnchor(c, t);
      PatternOf(t, eof);
      if c == STARCH {
        expbuf[0] := 0;
        return InError;
      }
      peekc := c;
      assert Rest() == Unanchored(t);
      res := CompileBody(eof, Unanchored(t));
    }

    // The test of compile for a leading caret.
    method ReadAnchor(c0: int, ghost t: seq<int>) returns (c: int)
      requires InputOk() && peekc == 0 && Positive(t)
      requires if t == [] then c0 == EOF && Rest() == [] else c0 == t[0] && Rest() == t[1..]
      modifies this`pos, this`peekc, this`circfl
      ensures InputOk() && peekc == 0 && circfl == (t != [] && t[0] == CARET)
      ensures var body := Unanchored(t);
              if body == [] then c == EOF && Rest() == [] else c == body[0] > 0 && Rest() == body[1..]
    {
      c := c0;
      circfl := false;
      if c == CARET {
        c := GetChar();
        circfl := true;
      }
    }

    // The main loop of compile.
    method CompileBody(eof: int, ghost body: seq<int>) returns (res: CompileResult)
      requires Valid() && InputOk() && eof > 0 && Rest() == body && (body != [] ==> body[0] != STARCH)
      modifies expbuf, this`pos, this`peekc
      ensures res != Reused
      ensures var ns := Parse(body, eof, 0, [], None);
              && (res == Compiled <==> ns.Some? && |Encode(ns.value)| < ESIZE)
              && (res == Compiled ==> Coded(expbuf[..], 0, ns.value))
              && (res == InError ==> expbuf[0] == 0)
    {
      hide Encode, EncodeNode, Parse, NextAtom, BufferIs, Coded, Alive;
      var ep: nat, lastep: nat, nbra: nat := 0, 0, 0;
      var bracket: seq<nat> := [];
      ghost var done: seq<Node>, prev: Option<Node>, alive := [], None, true;
      BodyStart(body, eof, expbuf[..]);
      while true
        invariant InputOk() && ep <= ESIZE + 3 && StackFits(nbra, bracket)
        invariant alive ==>
                    Alive(body, eof, Rest(), nbra, bracket, done, prev) && BufferIs(expbuf[..], ep, lastep, done, prev)
        invariant !alive ==> Rest() == [] && Parse(body, eof, 0, [], None).None?
        decreases |Rest()|, ESIZE + 4 - ep
      {
        ghost var r, buf, last0 := Rest(), expbuf[..], lastep;
        if ep >= ESIZE {
          if alive { TooLong(body, eof, r, nbra, bracket, done, prev, buf, ep, lastep); }
          expbuf[0] := 0;
          return InError;
        }
        var c := GetChar();
        if c == eof {
          expbuf[ep] := CEOF;
          BodyEnd(body, eof, r, nbra, bracket, done, prev, buf, ep, lastep);
          assert expbuf[..] == buf[ep := CEOF];
          return Compiled;
        }
        if c == STARCH {
          AtStar(body, eof, r, nbra, bracket, done, prev, buf, ep, lastep);
          if expbuf[lastep] == CBRA || expbuf[lastep] == CKET {
            return StarOnBracket;
          }
          expbuf[lastep] := SetStar(expbuf[lastep]);
          prev := Some(prev.value.(star := true));
          assert expbuf[..] == buf[lastep := SetStar(buf[lastep])];
        } else {
          lastep := ep;
          ghost var ep0, nbra0, bracket0 := ep, nbra, bracket;
          if r == [] {
            RestEmpty(body, eof, nbra, bracket, done, prev, alive);
          } else {
            AtomBad(body, eof, r, nbra, bracket, done, prev, buf, ep, last0);
          }
          var bad;
          ep, nbra, bracket, bad := CompileAtom(eof, c, ep, nbra, bracket, r);
          if bad {
            expbuf[0] := 0;
            return InError;
          }
          if r == [] || NextAtom(r, eof, nbra0, bracket0).None? {
            alive := false;
          } else {
            AtomStep(body, eof, r, nbra0, bracket0, done, prev, buf, ep0, last0, expbuf[..], ep);
            done, prev := done + AsList(prev), Some(Node(NextAtom(r, eof, nbra0, bracket0).value.atom, false));
          }
        }
      }
    }

    // cclass
    method CClass(ep: nat, c: int, af: bool) returns (r: bool)
      requires ep < expbuf.Length && 1 <= expbuf[ep] && ep + expbuf[ep] <= expbuf.Length
      ensures r == (c != 0 && (c in expbuf[ep + 1..ep + expbuf[ep]]) == af)
    {
      if c == 0 {
        return false;
      }
      var n, p := expbuf[ep] - 1, ep + 1;
      while n != 0
        invariant 0 <= n && p + n == ep + expbuf[ep] && ep + 1 <= p
        invariant c !in expbuf[ep + 1..p]
        decreases n
      {
        assert expbuf[ep + 1..p + 1] == expbuf[ep + 1..p] + [expbuf[p]];
        if expbuf[p] == c {
          assert expbuf[p] in expbuf[ep + 1..ep + expbuf[ep]];
          return af;
        }
        p, n := p + 1, n - 1;
      }
      return !af;
    }

    // advance: runs the code at aep against the line from alp. It succeeds exactly when the
    // nodes match there, and then with the counts that Run prefers.
    method Advance(line: seq<int>, alp: nat, aep: nat, ghost ns: seq<Node>) returns (ok: bool, ghost counts: seq<nat>)
      requires Valid() && Positive(line) && alp <= |line|
      requires AllWellFormed(ns) && DistinctBrackets(ns) && Coded(expbuf[..], aep, ns)
      modifies braslist, braelist, this`loc2
      ensures ok <==> Run(ns, line, alp).Some?
      ensures MarksKept(old(MarksNow()), MarksNow(), ns)
      ensures ok ==> Some(counts) == Run(ns, line, alp) && |counts| == |ns| && loc2 == alp + Sum(counts)
      ensures ok ==> MarksRight(MarksNow(), ns, counts, alp)
      decreases |ns|, 1
    {
      hide MarksRight, MarksKept, Coded, EncodeNode;
      var lp: nat, ep: nat := alp, aep;
      counts := [];
      StartRun(ns, line, alp, MarksNow());
      while true
        invariant RunThrough(ns, line, alp, counts, lp)
        invariant Coded(expbuf[..], ep, ns[|counts|..])
        invariant MarksRight(MarksNow(), ns[..|counts|], counts, alp)
        invariant MarksKept(old(MarksNow()), MarksNow(), ns)
        decreases |ns| - |counts|
      {
        ghost var rest, before := ns[|counts|..], MarksNow();
        Decoded(expbuf[..], ep, rest);
        var op := expbuf[ep];
        if rest == [] {
          assert ns[..|counts|] == ns;
        } else {
          assert rest[1..] == ns[|counts| + 1..] && rest[0] == ns[|counts|];
          assert WellFormed(rest[0]);
          Opcode(rest[0]);
        }
        if op == CEOF {
          loc2 := lp;
          assert counts + [] == counts;
          return true, counts;
        } else if op == CCHR || op == CDOT || op == CCL || op == NCCL {
          var took, next := MatchOne(line, lp, ep, rest[0]);
          if !took {
            return false, counts;
          }
          RunStep(ns, line, alp, counts, lp, 1);
          MarksSkip(MarksNow(), ns, counts, alp, 1);
          lp, ep, counts := lp + 1, next, counts + [1];
        } else if op == CDOL {
          SizeOf(rest[0]);
          if At(line, lp) != 0 {
            return false, counts;
          }
          RunStep(ns, line, alp, counts, lp, 0);
          MarksSkip(MarksNow(), ns, counts, alp, 0);
          ep, counts := ep + 1, counts + [0];
        } else if op == CBRA || op == CKET {
          SizeOf(rest[0]);
          if op == CBRA {
            braslist[expbuf[ep + 1]] := lp;
          } else {
            braelist[expbuf[ep + 1]] := lp;
          }
          RunStep(ns, line, alp, counts, lp, 0);
          OneMark(before, MarksNow(), rest[0], lp);
          MarksSet(before, MarksNow(), ns, counts, alp);
          KeptTwice(old(MarksNow()), before, MarksNow(), ns);
          ep, counts := ep + 2, counts + [0];
        } else {
          var past, next := ScanStar(line, lp, ep, rest[0]);
          ghost var c;
          ok, c := Backtrack(line, lp, past, next, rest);
          KeptMore(before, MarksNow(), ns, |counts|);
          KeptTwice(old(MarksNow()), before, MarksNow(), ns);
          if ok {
            MarksJoin(before, MarksNow(), ns, counts, c, alp);
            SumConcat(counts, c);
            counts := counts + c;
          }
          return;
        }
      }
    }

    // The four single-character instructions of advance.
    method MatchOne(line: seq<int>, lp: nat, ep: nat, ghost n: Node) returns (took: bool, next: nat)
      requires Valid() && Positive(line) && lp <= |line| && WellFormed(n) && Consumes(n.atom) && !n.star
      requires ep + |EncodeNode(n)| < expbuf.Length && expbuf[..][ep..ep + |EncodeNode(n)|] == EncodeNode(n)
      ensures took <==> lp < |line| && Accepts(n.atom, line[lp])
      ensures took ==> next == ep + |EncodeNode(n)|
    {
      hide EncodeNode;
      Opcode(n);
      SizeOf(n);
      ghost var e := EncodeNode(n);
      assert expbuf[ep] == expbuf[..][ep..ep + |e|][0];
      if expbuf[ep] == CCHR {
        assert expbuf[ep + 1] == expbuf[..][ep..ep + |e|][1];
        return expbuf[ep + 1] == At(line, lp), ep + 2;
      } else if expbuf[ep] == CDOT {
        return At(line, lp) != 0, ep + 1;
      } else {
        ClassAt(expbuf[..], ep, n);
        took := CClass(ep + 1, At(line, lp), expbuf[ep] == CCL);
        assert expbuf[ep + 2..ep + 1 + expbuf[ep + 1]] == n.atom.chars;
        next := ep + 1 + expbuf[ep + 1];
      }
    }

    // The scans of the starred instructions: one past the first character not accepted.
    method ScanStar(line: seq<int>, curlp: nat, ep: nat, ghost n: Node) returns (past: nat, next: nat)
      requires Valid() && Positive(line) && curlp <= |line| && WellFormed(n) && n.star
      requires ep + |EncodeNode(n)| < expbuf.Length && expbuf[..][ep..ep + |EncodeNode(n)|] == EncodeNode(n)
      ensures past == curlp + Span(n.atom, line, curlp) + 1 && past <= |line| + 1
      ensures next == ep + |EncodeNode(n)|
    {
      hide EncodeNode;
      Opcode(n);
      SizeOf(n);
      ghost var e := EncodeNode(n);
      assert expbuf[ep] == expbuf[..][ep..ep + |e|][0];
      var lp := curlp;
      if expbuf[ep] == CDOT + 1 {
        while At(line, lp) != 0
          invariant curlp <= lp <= |line| && Span(n.atom, line, curlp) == lp - curlp + Span(n.atom, line, lp)
          decreases |line| - lp
        {
          lp := lp + 1;
        }
        next := ep + 1;
      } else if expbuf[ep] == CCHR + 1 {
        assert expbuf[ep + 1] == expbuf[..][ep..ep + |e|][1];
        while At(line, lp) == expbuf[ep + 1]
          invariant curlp <= lp <= |line| && Span(n.atom, line, curlp) == lp - curlp + Span(n.atom, line, lp)
          decreases |line| - lp
        {
          lp := lp + 1;
        }
        next := ep + 2;
      } else {
        ClassAt(expbuf[..], ep, n);
        assert expbuf[ep + 2..ep + 1 + expbuf[ep + 1]] == n.atom.chars;
        lp := ScanClass(line, curlp, ep + 1, expbuf[ep] == CCL + 1, n.atom);
        next := ep + 1 + expbuf[ep + 1];
      }
      past := lp + 1;
    }

    method ScanClass(line: seq<int>, curlp: nat, ep: nat, af: bool, ghost a: Atom) returns (lp: nat)
      requires Positive(line) && curlp <= |line|
      requires ep < expbuf.Length && 1 <= expbuf[ep] && ep + expbuf[ep] <= expbuf.Length
      requires a == Class(!af, expbuf[ep + 1..ep + expbuf[ep]])
      ensures lp == curlp + Span(a, line, curlp) && lp <= |line|
    {
      lp := curlp;
      var more := CClass(ep, At(line, lp), af);
      while more
        invariant curlp <= lp <= |line| && Span(a, line, curlp) == lp - curlp + Span(a, line, lp)
        invariant more == (lp < |line| && Accepts(a, line[lp]))
        decreases |line| - lp
      {
        lp := lp + 1;
        more := CClass(ep, At(line, lp), af);
      }
    }

    // The loop at label star: from the longest repetition down to none.
    method Backtrack(line: seq<int>, curlp: nat, past: nat, ep: nat, ghost ns: seq<Node>)
        returns (ok: bool, ghost counts: seq<nat>)
      requires Valid() && Positive(line) && ns != [] && ns[0].star
      requires curlp < past <= |line| + 1 && past == curlp + Span(ns[0].atom, line, curlp) + 1
      requires AllWellFormed(ns) && DistinctBrackets(ns) && Coded(expbuf[..], ep, ns[1..])
      modifies braslist, braelist, this`loc2
      ensures ok <==> Run(ns, line, curlp).Some?
      ensures MarksKept(old(MarksNow()), MarksNow(), ns)
      ensures ok ==> Some(counts) == Run(ns, line, curlp) && |counts| == |ns| && loc2 == curlp + Sum(counts)
      ensures ok ==> MarksRight(MarksNow(), ns, counts, curlp)
      decreases |ns|, 0
    {
      hide MarksRight, MarksKept, Coded, EncodeNode;
      assert WellFormed(ns[0]);
      var lp := past;
      counts := [];
      KeptSame(MarksNow(), ns);
      while true
        invariant curlp < lp <= past
        invariant Run(ns, line, curlp) == Try(ns, line, curlp, lp - 1 - curlp)
        invariant MarksKept(old(MarksNow()), MarksNow(), ns)
        decreases lp
      {
        lp := lp - 1;
        ghost var before, c := MarksNow(), [];
        ok, c := Advance(line, lp, ep, ns[1..]);
        KeptMore(before, MarksNow(), ns, 1);
        KeptTwice(old(MarksNow()), before, MarksNow(), ns);
        if ok {
          counts := [lp - curlp] + c;
          MarksAfterStar(MarksNow(), ns, counts, curlp);
          return;
        }
        if !(lp > curlp) {
          return;
        }
      }
    }

    // execute on a line: the leftmost place where the pattern matches, or failure when
    // there is none; an anchored pattern is tried at the start only.
    method Execute(line: seq<int>, ghost ns: seq<Node>) returns (ok: bool, ghost counts: seq<nat>)
      requires Valid() && Positive(line)
      requires AllWellFormed(ns) && DistinctBrackets(ns) && Coded(expbuf[..], 0, ns)
      modifies braslist, braelist, this`loc1, this`loc2
      ensures ok <==> exists s, c, j :: Found(ns, circfl, line, s, c, j)
      ensures ok ==> 0 <= loc1 <= loc2 && Found(ns, circfl, line, loc1, counts, loc2)
      ensures ok ==> forall s, c, j :: Found(ns, circfl, line, s, c, j) ==>
                       loc1 < s || (loc1 == s && |counts| == |c| && Prefers(counts, c))
      ensures ok ==> |counts| == |ns| && MarksRight(MarksNow(), ns, counts, loc1)
    {
      hide MarksRight, MarksKept, Coded, EncodeNode, Run, Matches, Found, Prefers;
      counts := [];
      if circfl {
        loc1 := 0;
        ok, counts := Advance(line, 0, 0, ns);
        FoundAt(ns, line, 0, true);
        if ok { assert Found(ns, circfl, line, 0, counts, Sum(counts)); }
        return;
      }
      Decoded(expbuf[..], 0, ns);
      var fast := expbuf[0] == CCHR;
      ghost var first := 0;
      if fast {
        FirstCharacter(ns, expbuf[..]);
        first := ns[0].atom.c;
      }
      var p1 := 0;
      while true
        invariant 0 <= p1 <= |line| && Coded(expbuf[..], 0, ns)
        invariant fast ==> ns != [] && !ns[0].star && ns[0].atom == Chr(first) && expbuf[1] == first > 0
        invariant forall s :: 0 <= s < p1 ==> Run(ns, line, s).None?
        decreases |line| - p1
      {
        if !fast || At(line, p1) == expbuf[1] {
          ok, counts := Advance(line, p1, 0, ns);
          if ok {
            loc1 := p1;
            FoundAt(ns, line, p1, false);
            assert Found(ns, circfl, line, p1, counts, p1 + Sum(counts));
            return;
          }
        } else {
          WrongFirst(ns, line, p1, first);
        }
        if At(line, p1) == 0 {
          NotFound(ns, line);
          return false, [];
        }
        p1 := p1 + 1;
      }
    }
  }

  // ---------- compile, then execute ----------

  // What a search for a pattern text comes to.
  datatype Outcome = NoPattern | NoMatch | Match(start: nat, end: nat)

  // r is the place of the leftmost match of the pattern, with its stars resolved longest
  // first, and m marks its brackets; there is none exactly if nothing matches.
  ghost predicate IsMatch(p: Pattern, line: seq<int>, r: Outcome, m: Marks)
    requires |m.opens| == |m.closes| == NBRA
  {
    && (r.Match? <==> exists s, c, j :: Found(p.nodes, p.anchored, line, s, c, j))
    && (r.Match? ==> exists c :: IsBest(p, line, r.start, c, r.end) && |c| == |p.nodes|
                                 && MarksRight(m, p.nodes, c, r.start))
  }

  // r is what a search for the pattern at the start of text t comes to.
  ghost predicate IsSearch(t: seq<int>, eof: int, line: seq<int>, r: Outcome, m: Marks)
    requires |m.opens| == |m.closes| == NBRA
  {
    var p := ParsePattern(t, eof);
    && (r == NoPattern <==> p.None? || |Encode(p.value.nodes)| >= ESIZE)
    && (r != NoPattern ==> IsMatch(p.value, line, r, m))
  }

  ghost predicate IsBest(p: Pattern, line: seq<int>, s: nat, c: seq<nat>, j: nat)
  {
    && Found(p.nodes, p.anchored, line, s, c, j)
    && forall q, d, k :: Found(p.nodes, p.anchored, line, q, d, k) ==> s < q || (s == q && |c| == |d| && Prefers(c, d))
  }

  // A new pattern is read and looked for in a line. The answer is about the text alone: there
  // is no pattern exactly if the text denotes none that fits, and else the match is its
  // leftmost and longest-first one.
  method Search(ed: Ed, eof: int, line: seq<int>) returns (r: Outcome)
    requires ed.Valid() && ed.InputOk() && eof > 0 && Positive(line)
    requires ed.Rest() != [] ==> ed.Rest()[0] != eof
    modifies ed, ed.expbuf, ed.braslist, ed.braelist
    ensures ed.Valid() && IsSearch(old(ed.Rest()), eof, line, r, ed.MarksNow())
  {
    hide Encode, ParsePattern, Found, Coded, MarksRight, Prefers, EncodeNode;
    ghost var t := ed.Rest();
    RestPositive(ed);
    var res := ed.Compile(eof);
    if res != Compiled {
      return NoPattern;
    }
    ghost var p := ParsePattern(t, eof).value;
    PatternFits(t, eof);
    var ok;
    ghost var counts;
    ok, counts := ed.Execute(line, p.nodes);
    assert ed.circfl == p.anchored;
    assert ok <==> exists s, c, j :: Found(p.nodes, p.anchored, line, s, c, j);
    if ok {
      assert IsBest(p, line, ed.loc1, counts, ed.loc2);
      r := Match(ed.loc1, ed.loc2);
    } else {
      r := NoMatch;
    }
    assert IsMatch(p, line, r, ed.MarksNow());
  }

  lemma RestPositive(ed: Ed)
    requires ed.InputOk()
    ensures Positive(ed.Rest())
  {
  }

  // The nodes match line[s..j] with counts c, at the start if they are anchored.
  ghost predicate Found(ns: seq<Node>, anchored: bool, line: seq<int>, s: nat, c: seq<nat>, j: nat)
  {
    (anchored ==> s == 0) && s <= |line| && Matches(ns, c, line, s, j)
  }

  lemma FoundAt(ns: seq<Node>, line: seq<int>, s: nat, anchored: bool)
    requires AllWellFormed(ns) && s <= |line| && (anchored ==> s == 0)
    requires !anchored ==> forall r :: 0 <= r < s ==> Run(ns, line, r).None?
    ensures Run(ns, line, s).Some? ==>
              var c := Run(ns, line, s).value;
              && Found(ns, anchored, line, s, c, s + Sum(c))
              && forall r, d, j :: Found(ns, anchored, line, r, d, j) ==>
                 s < r || (s == r && |c| == |d| && Prefers(c, d))
    ensures Run(ns, line, s).None? && anchored ==> !exists r, d, j :: Found(ns, anchored, line, r, d, j)
  {
    RunIsBest(ns, line, s);
    forall r: nat, d, j | Found(ns, anchored, line, r, d, j) && r < s ensures false {
      RunIsBest(ns, line, r);
    }
  }

  lemma NotFound(ns: seq<Node>, line: seq<int>)
    requires AllWellFormed(ns) && forall r :: 0 <= r <= |line| ==> Run(ns, line, r).None?
    ensures !exists r, d, j :: Found(ns, false, line, r, d, j)
  {
    forall r: nat, d, j | Found(ns, false, line, r, d, j) ensures false {
      RunIsBest(ns, line, r);
    }
  }

  // The fast path looks at the literal that every match begins with.
  lemma FirstCharacter(ns: seq<Node>, buf: seq<int>)
    requires Coded(buf, 0, ns) && AllWellFormed(ns) && |buf| > 1 && buf[0] == CCHR
    ensures ns != [] && !ns[0].star && ns[0].atom.Chr? && buf[1] == ns[0].atom.c > 0
  {
    Decoded(buf, 0, ns);
    if ns != [] {
      assert WellFormed(ns[0]);
      Opcode(ns[0]);
    }
  }

  lemma WrongFirst(ns: seq<Node>, line: seq<int>, s: nat, first: int)
    requires ns != [] && !ns[0].star && ns[0].atom == Chr(first) && s <= |line| && At(line, s) != first
    ensures Run(ns, line, s).None?
  {
  }

  lemma SizeOf(n: Node)
    requires WellFormed(n)
    ensures EncodeNode(n) != [] && EncodeNode(n)[0] != CEOF
    ensures n.atom.EndOfLine? || n.atom.Dot? ==> |EncodeNode(n)| == 1
    ensures n.atom.Chr? ==> |EncodeNode(n)| == 2 && EncodeNode(n)[1] == n.atom.c
    ensures IsBracket(n.atom) ==> EncodeNode(n) == [if n.atom.Open? then CBRA else CKET, n.atom.k] && n.atom.k < NBRA
  {
  }

  lemma StartRun(ns: seq<Node>, line: seq<int>, alp: nat, m: Marks)
    requires alp <= |line| && |m.opens| == |m.closes| == NBRA
    ensures RunThrough(ns, line, alp, [], alp) && ns[0..] == ns
    ensures MarksRight(m, ns[..0], [], alp) && MarksKept(m, m, ns)
  {
    var r := Run(ns, line, alp);
    if r.Some? { assert [] + r.value == r.value; }
  }

  lemma KeptSame(m: Marks, ns: seq<Node>)
    requires |m.opens| == |m.closes| == NBRA
    ensures MarksKept(m, m, ns)
  {
  }

  lemma OneMark(m: Marks, m': Marks, n: Node, lp: int)
    requires |m.opens| == |m.closes| == NBRA && ValidBracket(n.atom)
    requires m' == if n.atom.Open? then m.(opens := m.opens[n.atom.k := lp]) else m.(closes := m.closes[n.atom.k := lp])
    ensures MarkOf(m', n.atom) == lp && MarksKept(m, m', [n])
  {
    assert [n][0].atom == n.atom;
    assert Mentions([n], n.atom);
  }

  // The repetition itself holds no bracket.
  lemma MarksAfterStar(m: Marks, ns: seq<Node>, counts: seq<nat>, i: int)
    requires |m.opens| == |m.closes| == NBRA && |counts| == |ns| > 0 && !IsBracket(ns[0].atom)
    requires MarksRight(m, ns[1..], counts[1..], i + counts[0])
    ensures MarksRight(m, ns, counts, i)
  {
    forall p | 0 <= p < |ns| && ValidBracket(ns[p].atom) ensures MarkOf(m, ns[p].atom) == i + Sum(counts[..p]) {
      assert ns[1..][p - 1] == ns[p] && counts[..p][1..] == counts[1..][..p - 1];
    }
  }
}
