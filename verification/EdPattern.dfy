/**
 Patterns of the line editor (user/bin/ed.c): what a pattern text denotes, the bytecode
 that stands for it, and when a stretch of a line matches.

 Characters are small positive numbers, as getchar delivers them; a line holds no NUL.
 */
module EdPattern {
  import opened Common

  const BSLASH: int := 92
  const LPAREN: int := 40
  const RPAREN: int := 41
  const DOTCH: int := 46
  const STARCH: int := 42
  const DOLLAR: int := 36
  const LBRACK: int := 91
  const RBRACK: int := 93
  const CARET: int := 94
  const NEWLINE: int := 10

  const NBRA: nat := 5

  // ---------- patterns ----------

  datatype Atom =
    | Chr(c: int)
    | Dot
    | Class(negated: bool, chars: seq<int>)
    | Open(k: nat)
    | Close(k: nat)
    | EndOfLine

  datatype Node = Node(atom: Atom, star: bool)

  datatype Pattern = Pattern(anchored: bool, nodes: seq<Node>)

  predicate Consumes(a: Atom) { a.Chr? || a.Dot? || a.Class? }

  predicate IsBracket(a: Atom) { a.Open? || a.Close? }

  // Does one character of a line match a consuming atom?
  predicate Accepts(a: Atom, c: int)
  {
    match a
    case Chr(d) => c == d
    case Dot => true
    case Class(negated, chars) => (c in chars) != negated
    case _ => false
  }

  // What compile produces: only consuming atoms are starred, characters are positive,
  // and bracket numbers are below NBRA.
  ghost predicate WellFormed(n: Node)
  {
    && (n.star ==> Consumes(n.atom))
    && match n.atom
       case Chr(c) => c > 0
       case Class(_, chars) => chars != [] && forall c :: c in chars ==> c > 0
       case Open(k) => k < NBRA
       case Close(k) => k < NBRA
       case _ => true
  }

  ghost predicate AllWellFormed(ns: seq<Node>) { forall i :: 0 <= i < |ns| ==> WellFormed(ns[i]) }

  // ---------- when a pattern matches ----------

  // `counts` says how many characters each node takes; the nodes match line[i..j].
  ghost predicate Matches(ns: seq<Node>, counts: seq<nat>, line: seq<int>, i: nat, j: nat)
    decreases |ns|
  {
    if ns == [] then counts == [] && i == j <= |line|
    else
      && |counts| == |ns|
      && i + counts[0] <= |line|
      && NodeTakes(ns[0], counts[0], line, i)
      && Matches(ns[1..], counts[1..], line, i + counts[0], j)
  }

  ghost predicate NodeTakes(n: Node, count: nat, line: seq<int>, i: nat)
    requires i + count <= |line|
  {
    if Consumes(n.atom) then
      (n.star || count == 1) && forall k :: i <= k < i + count ==> Accepts(n.atom, line[k])
    else
      count == 0 && (n.atom.EndOfLine? ==> i == |line|)
  }

  // Longest first: the earliest difference decides in favour of the larger count.
  ghost predicate Prefers(a: seq<nat>, b: seq<nat>)
    requires |a| == |b|
  {
    a == [] || a[0] > b[0] || (a[0] == b[0] && Prefers(a[1..], b[1..]))
  }

  // ---------- the matcher as a function ----------

  function Prepend(n: nat, r: Option<seq<nat>>): Option<seq<nat>>
  {
    if r.None? then None else Some([n] + r.value)
  }

  // How many characters from i on the atom accepts in a row.
  function Span(a: Atom, line: seq<int>, i: nat): nat
    decreases |line| - i
  {
    if i < |line| && Accepts(a, line[i]) then 1 + Span(a, line, i + 1) else 0
  }

  // The counts that backtracking from the longest repetition finds first.
  function Run(ns: seq<Node>, line: seq<int>, i: nat): Option<seq<nat>>
    decreases |ns|, 0
  {
    if ns == [] then Some([])
    else if IsBracket(ns[0].atom) then Prepend(0, Run(ns[1..], line, i))
    else if ns[0].atom.EndOfLine? then (if i == |line| then Prepend(0, Run(ns[1..], line, i)) else None)
    else if ns[0].star then Try(ns, line, i, Span(ns[0].atom, line, i))
    else if i < |line| && Accepts(ns[0].atom, line[i]) then Prepend(1, Run(ns[1..], line, i + 1))
    else None
  }

  // The repetitions of the leading star, from n downwards.
  function Try(ns: seq<Node>, line: seq<int>, i: nat, n: nat): Option<seq<nat>>
    requires ns != []
    decreases |ns|, 0, n
  {
    var r := Run(ns[1..], line, i + n);
    if r.Some? then Some([n] + r.value) else if n == 0 then None else Try(ns, line, i, n - 1)
  }

  function Sum(counts: seq<nat>): nat { if counts == [] then 0 else counts[0] + Sum(counts[1..]) }

  lemma {:induction false} SpanIs(a: Atom, line: seq<int>, i: nat)
    requires i <= |line|
    ensures i + Span(a, line, i) <= |line|
    ensures forall k :: i <= k < i + Span(a, line, i) ==> Accepts(a, line[k])
    ensures i + Span(a, line, i) < |line| ==> !Accepts(a, line[i + Span(a, line, i)])
    decreases |line| - i
  {
    if i < |line| && Accepts(a, line[i]) { SpanIs(a, line, i + 1); }
  }

  lemma {:induction false} SpanLongest(a: Atom, line: seq<int>, i: nat, m: nat)
    requires i + m <= |line| && forall k :: i <= k < i + m ==> Accepts(a, line[k])
    ensures m <= Span(a, line, i)
    decreases m
  {
    if m > 0 { SpanLongest(a, line, i + 1, m - 1); }
  }

  // The counts found match, and are preferred to all others that match.
  lemma {:induction false} RunIsBest(ns: seq<Node>, line: seq<int>, i: nat)
    requires AllWellFormed(ns) && i <= |line|
    ensures Run(ns, line, i).Some? ==>
              var c := Run(ns, line, i).value; |c| == |ns| && Matches(ns, c, line, i, i + Sum(c))
    ensures forall c', j :: Matches(ns, c', line, i, j) ==>
              Run(ns, line, i).Some? && |Run(ns, line, i).value| == |c'| && Prefers(Run(ns, line, i).value, c')
    decreases |ns|, 0
  {
    if ns != [] {
      var n := ns[0];
      if n.star {
        SpanIs(n.atom, line, i);
        TryIsBest(ns, line, i, Span(n.atom, line, i));
        forall c', j | Matches(ns, c', line, i, j) ensures c'[0] <= Span(n.atom, line, i) {
          SpanLongest(n.atom, line, i, c'[0]);
        }
      } else {
        var w := if Consumes(n.atom) then 1 else 0;
        if i + w <= |line| { RunIsBest(ns[1..], line, i + w); }
        forall c', j | Matches(ns, c', line, i, j) ensures c'[0] == w {
        }
      }
    }
  }

  lemma {:induction false} TryIsBest(ns: seq<Node>, line: seq<int>, i: nat, n: nat)
    requires ns != [] && AllWellFormed(ns) && ns[0].star && i + n <= |line|
    requires forall k :: i <= k < i + n ==> Accepts(ns[0].atom, line[k])
    ensures Try(ns, line, i, n).Some? ==>
              var c := Try(ns, line, i, n).value; |c| == |ns| && Matches(ns, c, line, i, i + Sum(c))
    ensures forall c', j :: Matches(ns, c', line, i, j) && c'[0] <= n ==>
              Try(ns, line, i, n).Some? && |Try(ns, line, i, n).value| == |c'| && Prefers(Try(ns, line, i, n).value, c')
    decreases |ns|, 0, n
  {
    RunIsBest(ns[1..], line, i + n);
    if Run(ns[1..], line, i + n).None? && n > 0 {
      TryIsBest(ns, line, i, n - 1);
    }
  }

  // ---------- bracket marks ----------

  // Where the brackets of a match begin and end (braslist and braelist).
  datatype Marks = Marks(opens: seq<int>, closes: seq<int>)

  ghost predicate ValidBracket(a: Atom) { IsBracket(a) && a.k < NBRA }

  ghost function MarkOf(m: Marks, a: Atom): int
    requires |m.opens| == |m.closes| == NBRA && ValidBracket(a)
  {
    if a.Open? then m.opens[a.k] else m.closes[a.k]
  }

  ghost predicate Mentions(ns: seq<Node>, a: Atom) { exists q :: 0 <= q < |ns| && ns[q].atom == a }

  // Every bracket is marked with the place where the match reached it.
  ghost predicate MarksRight(m: Marks, ns: seq<Node>, counts: seq<nat>, i: int)
    requires |m.opens| == |m.closes| == NBRA && |counts| == |ns|
  {
    forall p :: 0 <= p < |ns| && ValidBracket(ns[p].atom) ==> MarkOf(m, ns[p].atom) == i + Sum(counts[..p])
  }

  // Brackets that the nodes do not mention keep their marks.
  ghost predicate MarksKept(m: Marks, m': Marks, ns: seq<Node>)
    requires |m.opens| == |m.closes| == |m'.opens| == |m'.closes| == NBRA
  {
    forall a :: ValidBracket(a) && !Mentions(ns, a) ==> MarkOf(m', a) == MarkOf(m, a)
  }

  ghost predicate DistinctBrackets(ns: seq<Node>)
  {
    forall p, q :: 0 <= p < q < |ns| && IsBracket(ns[p].atom) ==> ns[q].atom != ns[p].atom
  }

  // ---------- the pattern language ----------

  // The characters of a class, up to and without the closing bracket; the first one is
  // taken whatever it is.
  function ClassChars(t: seq<int>, first: bool): Option<seq<int>>
  {
    if t == [] then None
    else if !first && t[0] == RBRACK then Some([])
    else if t[0] == NEWLINE then None
    else
      var r := ClassChars(t[1..], false);
      if r.None? then None else Some([t[0]] + r.value)
  }

  datatype Token = Token(atom: Atom, len: nat, nbra: nat, stack: seq<nat>)

  // The atom that text t, not at its delimiter or at a star, begins with.
  function NextAtom(t: seq<int>, eof: int, nbra: nat, stack: seq<nat>): (r: Option<Token>)
    requires t != []
    ensures r.Some? ==> 0 < r.value.len <= |t|
  {
    var c := t[0];
    if c == BSLASH then
      if |t| < 2 then None
      else if t[1] == LPAREN then
        if nbra >= NBRA then None else Some(Token(Open(nbra), 2, nbra + 1, [nbra] + stack))
      else if t[1] == RPAREN then
        if stack == [] then None else Some(Token(Close(stack[0]), 2, nbra, stack[1..]))
      else if t[1] == NEWLINE then None
      else Some(Token(Chr(t[1]), 2, nbra, stack))
    else if c == DOTCH then Some(Token(Dot, 1, nbra, stack))
    else if c == NEWLINE then None
    else if c == DOLLAR then
      Some(Token(if |t| > 1 && t[1] == eof then EndOfLine else Chr(c), 1, nbra, stack))
    else if c == LBRACK then
      var neg := |t| > 1 && t[1] == CARET;
      var from := if neg then 2 else 1;
      var cs := ClassChars(t[from..], true);
      if cs.None? then None
      else
        ClassCharsLength(t[from..], true);
        Some(Token(Class(neg, cs.value), from + |cs.value| + 1, nbra, stack))
    else Some(Token(Chr(c), 1, nbra, stack))
  }

  lemma ClassCharsLength(t: seq<int>, first: bool)
    ensures ClassChars(t, first).Some? ==> |ClassChars(t, first).value| + 1 <= |t|
    ensures ClassChars(t, first).Some? && first ==> ClassChars(t, first).value != []
  {
  }

  function AsList(prev: Option<Node>): seq<Node> { if prev.None? then [] else [prev.value] }

  function Append(ns: seq<Node>, r: Option<seq<Node>>): Option<seq<Node>>
  {
    if r.None? then None else Some(ns + r.value)
  }

  // The nodes that text t denotes up to the delimiter `eof`, after node `prev`, which a
  // star may still change. None: the text is in error.
  function Parse(t: seq<int>, eof: int, nbra: nat, stack: seq<nat>, prev: Option<Node>): Option<seq<Node>>
    decreases |t|
  {
    if t == [] then None
    else if t[0] == eof then Some(AsList(prev))
    else if t[0] == STARCH then
      if prev.None? || IsBracket(prev.value.atom) then None
      else Parse(t[1..], eof, nbra, stack, Some(prev.value.(star := true)))
    else
      var k := NextAtom(t, eof, nbra, stack);
      if k.None? then None
      else Append(AsList(prev),
                  Parse(t[k.value.len..], eof, k.value.nbra, k.value.stack, Some(Node(k.value.atom, false))))
  }

  // A whole pattern, with its optional anchor; t does not begin with the delimiter.
  function ParsePattern(t: seq<int>, eof: int): Option<Pattern>
  {
    if t == [] then None
    else
      var anchored := t[0] == CARET;
      var body := if anchored then t[1..] else t;
      if body != [] && body[0] == STARCH then None
      else
        var ns := Parse(body, eof, 0, [], None);
        if ns.None? then None else Some(Pattern(anchored, ns.value))
  }

  ghost predicate Positive(t: seq<int>) { forall i :: 0 <= i < |t| ==> t[i] > 0 }

  ghost predicate StackFits(nbra: nat, stack: seq<nat>)
  {
    && nbra <= NBRA && (forall i :: 0 <= i < |stack| ==> stack[i] < nbra)
    && forall i, j :: 0 <= i < j < |stack| ==> stack[i] != stack[j]
  }

  lemma {:induction false} ClassCharsPositive(t: seq<int>, first: bool)
    requires Positive(t) && ClassChars(t, first).Some?
    ensures Positive(ClassChars(t, first).value)
  {
    if first || t[0] != RBRACK { ClassCharsPositive(t[1..], false); }
  }

  lemma NextAtomFits(t: seq<int>, eof: int, nbra: nat, stack: seq<nat>)
    requires t != [] && Positive(t) && StackFits(nbra, stack) && NextAtom(t, eof, nbra, stack).Some?
    ensures var k := NextAtom(t, eof, nbra, stack).value;
            && WellFormed(Node(k.atom, false)) && StackFits(k.nbra, k.stack)
            && (k.atom.EndOfLine? ==> k.len < |t| && t[k.len] == eof)
  {
    if t[0] == LBRACK {
      var from := if |t| > 1 && t[1] == CARET then 2 else 1;
      ClassCharsPositive(t[from..], true);
      ClassCharsLength(t[from..], true);
    }
  }

  // Every pattern that parses is well-formed.
  lemma {:induction false} ParseWellFormed(t: seq<int>, eof: int, nbra: nat, stack: seq<nat>, prev: Option<Node>)
    requires Positive(t) && StackFits(nbra, stack) && Parse(t, eof, nbra, stack, prev).Some?
    requires prev.Some? ==> WellFormed(prev.value) && (prev.value.atom.EndOfLine? ==> t[0] == eof)
    ensures AllWellFormed(Parse(t, eof, nbra, stack, prev).value)
    decreases |t|
  {
    if t[0] == eof {
    } else if t[0] == STARCH {
      ParseWellFormed(t[1..], eof, nbra, stack, Some(prev.value.(star := true)));
    } else {
      NextAtomFits(t, eof, nbra, stack);
      var k := NextAtom(t, eof, nbra, stack).value;
      ParseWellFormed(t[k.len..], eof, k.nbra, k.stack, Some(Node(k.atom, false)));
    }
  }

  // Brackets still to come: their numbers are new, or on the stack and not yet closed.
  ghost predicate Ahead(a: Atom, nbra: nat, stack: seq<nat>)
  {
    match a
    case Open(k) => nbra <= k
    case Close(k) => nbra <= k || k in stack
    case _ => true
  }

  // No bracket of a pattern occurs twice, so that each has one place in a match.
  lemma {:induction false} ParseBracketsDistinct(t: seq<int>, eof: int, nbra: nat, stack: seq<nat>, prev: Option<Node>)
    requires Positive(t) && StackFits(nbra, stack) && Parse(t, eof, nbra, stack, prev).Some?
    requires prev.Some? ==> !Ahead(prev.value.atom, nbra, stack) || !IsBracket(prev.value.atom)
    ensures var ns := Parse(t, eof, nbra, stack, prev).value;
            && DistinctBrackets(ns) && (prev.Some? ==> ns != [] && ns[0].atom == prev.value.atom)
            && forall i :: |AsList(prev)| <= i < |ns| ==> Ahead(ns[i].atom, nbra, stack)
    decreases |t|
  {
    if t[0] == eof {
    } else if t[0] == STARCH {
      ParseBracketsDistinct(t[1..], eof, nbra, stack, Some(prev.value.(star := true)));
    } else {
      NextAtomFits(t, eof, nbra, stack);
      var k := NextAtom(t, eof, nbra, stack).value;
      ParseBracketsDistinct(t[k.len..], eof, k.nbra, k.stack, Some(Node(k.atom, false)));
      var ns' := Parse(t[k.len..], eof, k.nbra, k.stack, Some(Node(k.atom, false))).value;
      forall i | 0 <= i < |ns'| ensures Ahead(ns'[i].atom, nbra, stack) {
        if i > 0 { assert Ahead(ns'[i].atom, k.nbra, k.stack); }
      }
    }
  }

  // What execute needs of a compiled pattern.
  lemma PatternFits(t: seq<int>, eof: int)
    requires Positive(t) && ParsePattern(t, eof).Some?
    ensures AllWellFormed(ParsePattern(t, eof).value.nodes) && DistinctBrackets(ParsePattern(t, eof).value.nodes)
  {
    var body := if t[0] == CARET then t[1..] else t;
    ParseWellFormed(body, eof, 0, [], None);
    ParseBracketsDistinct(body, eof, 0, [], None);
  }

  // ---------- writing patterns down ----------

  // A text for an atom: literals are quoted, except that a quoted parenthesis would be a bracket.
  function ShowAtom(a: Atom): seq<int>
  {
    match a
    case Chr(c) => if c == LPAREN || c == RPAREN then [c] else [BSLASH, c]
    case Dot => [DOTCH]
    case Class(negated, chars) => (if negated then [LBRACK, CARET] else [LBRACK]) + chars + [RBRACK]
    case Open(_) => [BSLASH, LPAREN]
    case Close(_) => [BSLASH, RPAREN]
    case EndOfLine => [DOLLAR]
  }

  function Show(ns: seq<Node>): seq<int>
  {
    if ns == [] then [] else ShowAtom(ns[0].atom) + (if ns[0].star then [STARCH] else []) + Show(ns[1..])
  }

  // The atoms a pattern text can denote at a point where nbra brackets have been opened
  // and those on the stack are still open.
  ghost predicate Showable(ns: seq<Node>, nbra: nat, stack: seq<nat>)
    decreases |ns|
  {
    ns != [] ==>
      var a := ns[0].atom;
      && WellFormed(ns[0])
      && (a.Chr? ==> a.c != NEWLINE)
      && (a.Class? ==>
            && (!a.negated ==> a.chars[0] != CARET)
            && (forall i :: 0 <= i < |a.chars| ==> a.chars[i] != NEWLINE && (i > 0 ==> a.chars[i] != RBRACK)))
      && (a.EndOfLine? ==> |ns| == 1)
      && match a
         case Open(k) => k == nbra < NBRA && Showable(ns[1..], nbra + 1, [nbra] + stack)
         case Close(k) => stack != [] && k == stack[0] && Showable(ns[1..], nbra, stack[1..])
         case _ => Showable(ns[1..], nbra, stack)
  }

  // A delimiter that none of the texts above begins with.
  ghost predicate PlainDelimiter(eof: int)
  {
    eof !in {BSLASH, LPAREN, RPAREN, DOTCH, STARCH, DOLLAR, LBRACK, CARET, NEWLINE}
  }

  lemma {:induction false} ClassCharsShown(cs: seq<int>, rest: seq<int>, first: bool)
    requires forall i :: 0 <= i < |cs| ==> cs[i] != NEWLINE && (i > 0 || !first ==> cs[i] != RBRACK)
    requires first ==> cs != []
    ensures ClassChars(cs + [RBRACK] + rest, first) == Some(cs)
  {
    var t := cs + [RBRACK] + rest;
    if cs == [] {
      assert t[0] == RBRACK;
    } else {
      ClassCharsShown(cs[1..], rest, false);
      assert t[1..] == cs[1..] + [RBRACK] + rest && t[0] == cs[0];
      assert [cs[0]] + cs[1..] == cs;
    }
  }

  lemma NextAtomShown(a: Atom, rest: seq<int>, eof: int, nbra: nat, stack: seq<nat>, ns: seq<Node>)
    requires ns != [] && ns[0].atom == a && Showable(ns, nbra, stack) && (a.EndOfLine? ==> rest != [] && rest[0] == eof)
    ensures var k := NextAtom(ShowAtom(a) + rest, eof, nbra, stack);
            && k.Some? && k.value.atom == a && k.value.len == |ShowAtom(a)|
               && (ShowAtom(a) + rest)[k.value.len..] == rest
            && Showable(ns[1..], k.value.nbra, k.value.stack)
  {
    var t := ShowAtom(a) + rest;
    assert t[|ShowAtom(a)|..] == rest;
    if a.Class? {
      var from := if a.negated then 2 else 1;
      assert t == (if a.negated then [LBRACK, CARET] else [LBRACK]) + (a.chars + [RBRACK] + rest);
      assert t[from..] == a.chars + [RBRACK] + rest;
      ClassCharsShown(a.chars, rest, true);
    }
  }

  // Round trip: the text of a pattern denotes that pattern.
  lemma {:induction false} ParseShow(ns: seq<Node>, eof: int, rest: seq<int>, nbra: nat, stack: seq<nat>,
                                     prev: Option<Node>)
    requires PlainDelimiter(eof) && Showable(ns, nbra, stack)
    ensures Parse(Show(ns) + [eof] + rest, eof, nbra, stack, prev) == Some(AsList(prev) + ns)
    decreases |ns|
  {
    hide NextAtom, ShowAtom, Parse, Showable;
    var t := Show(ns) + [eof] + rest;
    if ns == [] {
      ParseDelimiter(t, eof, nbra, stack, prev);
    } else {
      var n := ns[0];
      var after := Show(ns[1..]) + [eof] + rest;
      var mid := (if n.star then [STARCH] else []) + after;
      assert t == ShowAtom(n.atom) + mid;
      ShownFirst(n.atom, eof);
      assert t[0] == ShowAtom(n.atom)[0];
      ShownLast(ns, nbra, stack);
      NextAtomShown(n.atom, mid, eof, nbra, stack, ns);
      var k := NextAtom(t, eof, nbra, stack).value;
      ParseShow(ns[1..], eof, rest, k.nbra, k.stack, Some(n));
      ParseAtomStep(t, eof, nbra, stack, prev);
      if n.star {
        assert mid[0] == STARCH && mid[1..] == after;
        ParseStarStep(mid, eof, k.nbra, k.stack, Node(n.atom, false));
      } else {
        assert mid == after;
      }
      assert AsList(Some(n)) + ns[1..] == ns;
    }
  }

  // The end-of-line mark comes last; only consuming atoms carry a star.
  lemma ShownLast(ns: seq<Node>, nbra: nat, stack: seq<nat>)
    requires ns != [] && Showable(ns, nbra, stack)
    ensures WellFormed(ns[0]) && (ns[0].atom.EndOfLine? ==> ns[1..] == [])
  {
  }

  lemma ParseDelimiter(t: seq<int>, eof: int, nbra: nat, stack: seq<nat>, prev: Option<Node>)
    requires t != [] && t[0] == eof
    ensures Parse(t, eof, nbra, stack, prev) == Some(AsList(prev) + [])
  {
    assert AsList(prev) + [] == AsList(prev);
  }

  lemma ParseAtomStep(t: seq<int>, eof: int, nbra: nat, stack: seq<nat>, prev: Option<Node>)
    requires t != [] && t[0] != eof && t[0] != STARCH && NextAtom(t, eof, nbra, stack).Some?
    ensures var k := NextAtom(t, eof, nbra, stack).value;
            Parse(t, eof, nbra, stack, prev)
                == Append(AsList(prev), Parse(t[k.len..], eof, k.nbra, k.stack, Some(Node(k.atom, false))))
  {
  }

  lemma ParseStarStep(t: seq<int>, eof: int, nbra: nat, stack: seq<nat>, n: Node)
    requires t != [] && t[0] == STARCH != eof && !IsBracket(n.atom)
    ensures Parse(t, eof, nbra, stack, Some(n)) == Parse(t[1..], eof, nbra, stack, Some(n.(star := true)))
  {
  }

  lemma ShownFirst(a: Atom, eof: int)
    requires PlainDelimiter(eof)
    ensures ShowAtom(a) != [] && ShowAtom(a)[0] != eof && ShowAtom(a)[0] != STARCH
  {
  }

  // ---------- bytecode ----------

  const CBRA: int := 1
  const CCHR: int := 2
  const CDOT: int := 4
  const CCL: int := 6
  const NCCL: int := 8
  const CDOL: int := 10
  const CEOF: int := 11
  const CKET: int := 12

  function EncodeNode(n: Node): seq<int>
  {
    var star := if n.star then 1 else 0;
    match n.atom
    case Chr(c) => [CCHR + star, c]
    case Dot => [CDOT + star]
    case Class(negated, chars) => [(if negated then NCCL else CCL) + star, |chars| + 1] + chars
    case Open(k) => [CBRA, k]
    case Close(k) => [CKET, k]
    case EndOfLine => [CDOL]
  }

  function Encode(ns: seq<Node>): seq<int>
  {
    if ns == [] then [] else Encode(ns[..|ns| - 1]) + EncodeNode(ns[|ns| - 1])
  }

  lemma EncodeAppend(ns: seq<Node>, n: Node)
    ensures Encode(ns + [n]) == Encode(ns) + EncodeNode(n)
  {
    assert (ns + [n])[..|ns|] == ns;
  }

  lemma {:induction false} EncodeCons(ns: seq<Node>)
    requires ns != []
    ensures Encode(ns) == EncodeNode(ns[0]) + Encode(ns[1..])
  {
    if |ns| > 1 {
      var m := ns[..|ns| - 1];
      EncodeCons(m);
      assert m[1..] == ns[1..][..|ns| - 2];
    }
  }
}
