/**
 What a search of the line editor finds, for pattern texts of one atom: each kind of atom in
 terms of its text and the line alone, and anchors, stars and brackets around a class.
 */
module EdTexts {
  import opened Common
  import opened EdPattern
  import opened EdMachine

  // ---------- one node ----------

  // What a single node matches.
  lemma NodeMeaning(n: Node, c: seq<nat>, line: seq<int>, i: nat, j: nat)
    ensures Matches([n], c, line, i, j) <==>
              && |c| == 1 && i + c[0] == j <= |line|
              && match n.atom
                 case Chr(d) => (n.star || j == i + 1) && forall k :: i <= k < j ==> line[k] == d
                 case Dot => n.star || j == i + 1
                 case Class(false, chars) => (n.star || j == i + 1) && forall k :: i <= k < j ==> line[k] in chars
                 case Class(true, chars) => (n.star || j == i + 1) && forall k :: i <= k < j ==> line[k] !in chars
                 case Open(_) => j == i
                 case Close(_) => j == i
                 case EndOfLine => j == i == |line|
  {
    if |c| == 1 {
      assert [n][1..] == [] && c[1..] == [];
    }
  }

  // A match of nodes and then others is a match of both, one after the other.
  lemma {:induction false} MatchesBoth(ns: seq<Node>, ms: seq<Node>, c: seq<nat>, d: seq<nat>, line: seq<int>, i: nat,
                                       j: nat)
    requires |c| == |ns| && |d| == |ms| && i <= |line|
    ensures Matches(ns + ms, c + d, line, i, j) <==>
              && i + Sum(c) <= |line| && Matches(ns, c, line, i, i + Sum(c))
              && Matches(ms, d, line, i + Sum(c), j)
    decreases |ns|
  {
    if ns == [] {
      assert ns + ms == ms && c + d == d;
    } else {
      assert (ns + ms)[1..] == ns[1..] + ms && (c + d)[1..] == c[1..] + d;
      if i + c[0] <= |line| { MatchesBoth(ns[1..], ms, c[1..], d, line, i + c[0], j); }
    }
  }

  // ---------- the pattern of a text ----------

  // The token at the start of the text is all there is of the pattern.
  lemma OneAtom(t: seq<int>, eof: int, k: Token)
    requires t != [] && t[0] !in {eof, '^' as int, '*' as int} && NextAtom(t, eof, 0, []) == Some(k)
    requires k.len < |t| && t[k.len] == eof
    ensures ParsePattern(t, eof) == Some(Pattern(false, [Node(k.atom, false)]))
  {
    var n := Some(Node(k.atom, false));
    ParseAtomStep(t, eof, 0, [], None);
    ParseDelimiter(t[k.len..], eof, k.nbra, k.stack, n);
    assert AsList(None) + AsList(n) == AsList(n);
  }

  lemma StarredAtom(t: seq<int>, eof: int, k: Token)
    requires t != [] && t[0] !in {eof, '^' as int, '*' as int} && NextAtom(t, eof, 0, []) == Some(k)
    requires k.len + 1 < |t| && t[k.len] == '*' as int && t[k.len + 1] == eof != '*' as int && !IsBracket(k.atom)
    ensures ParsePattern(t, eof) == Some(Pattern(false, [Node(k.atom, true)]))
  {
    var n, m := Node(k.atom, false), Node(k.atom, true);
    ParseAtomStep(t, eof, 0, [], None);
    ParseStarStep(t[k.len..], eof, k.nbra, k.stack, n);
    assert t[k.len..][1..] == t[k.len + 1..];
    ParseDelimiter(t[k.len + 1..], eof, k.nbra, k.stack, Some(m));
    assert AsList(None) + AsList(Some(m)) == AsList(Some(m));
  }

  // A class: its text, and what is read of it.
  ghost predicate ClassText(negated: bool, cs: seq<int>)
  {
    && cs != []
    && (!negated ==> cs[0] != '^' as int)
    && forall i :: 0 <= i < |cs| ==> cs[i] != '\n' as int && (i > 0 ==> cs[i] != ']' as int)
  }

  lemma ClassToken(t: seq<int>, eof: int, nbra: nat, stack: seq<nat>, negated: bool, cs: seq<int>, rest: seq<int>)
    requires ClassText(negated, cs)
    requires t == (if negated then ['[' as int, '^' as int] else ['[' as int]) + cs + [']' as int] + rest
    ensures NextAtom(t, eof, nbra, stack)
            == Some(Token(Class(negated, cs), (if negated then 2 else 1) + |cs| + 1, nbra, stack))
  {
    hide ClassChars;
    var u := cs + [']' as int] + rest;
    if negated {
      assert t == ['[' as int, '^' as int] + u;
      assert t[2..] == u;
    } else {
      assert t == ['[' as int] + u;
      assert t[1..] == u;
    }
    ClassCharsShown(cs, rest, true);
  }

  lemma OneCode(n: Node)
    ensures Encode([n]) == EncodeNode(n)
  {
    assert [n][..0] == [];
  }

  // ---------- what is found ----------

  lemma FirstAccepted(p: Pattern, line: seq<int>, r: Outcome, m: Marks)
    requires |p.nodes| == 1 && !p.nodes[0].star && Consumes(p.nodes[0].atom) && !p.anchored && r != NoPattern
    requires |m.opens| == |m.closes| == NBRA && IsMatch(p, line, r, m)
    ensures r == NoMatch ==> forall k :: 0 <= k < |line| ==> !Accepts(p.nodes[0].atom, line[k])
    ensures r.Match? ==> && r.start < |line| && r.end == r.start + 1 && Accepts(p.nodes[0].atom, line[r.start])
                         && forall k :: 0 <= k < r.start ==> !Accepts(p.nodes[0].atom, line[k])
  {
    var n := p.nodes[0];
    assert p.nodes == [n];
    forall k | 0 <= k < |line| && Accepts(n.atom, line[k]) ensures Found(p.nodes, false, line, k, [1], k + 1) {
      NodeMeaning(n, [1], line, k, k + 1);
    }
    if r.Match? {
      var c :| IsBest(p, line, r.start, c, r.end) && |c| == |p.nodes|;
      NodeMeaning(n, c, line, r.start, r.end);
    }
  }

  // A class finds the first character that is in it, if its code fits the buffer.
  lemma FindsClass(t: seq<int>, eof: int, line: seq<int>, r: Outcome, m: Marks, cs: seq<int>, rest: seq<int>)
    requires |m.opens| == |m.closes| == NBRA && IsSearch(t, eof, line, r, m) && ClassText(false, cs)
    requires t == ['[' as int] + cs + [']' as int, eof] + rest && eof != '[' as int
    ensures r == NoPattern <==> |cs| + 2 >= 128
    ensures r == NoMatch ==> forall k :: 0 <= k < |line| ==> line[k] !in cs
    ensures r.Match? ==>
              && r.start < |line| && r.end == r.start + 1 && line[r.start] in cs
              && forall k :: 0 <= k < r.start ==> line[k] !in cs
  {
    hide Parse, ParsePattern, Encode, Matches, MarksRight, NextAtom;
    assert t == ['[' as int] + cs + [']' as int] + ([eof] + rest);
    ClassToken(t, eof, 0, [], false, cs, [eof] + rest);
    OneAtom(t, eof, NextAtom(t, eof, 0, []).value);
    OneCode(Node(Class(false, cs), false));
    if r != NoPattern { FirstAccepted(ParsePattern(t, eof).value, line, r, m); }
  }

  // A negated class finds the first character that is not.
  lemma FindsOther(t: seq<int>, eof: int, line: seq<int>, r: Outcome, m: Marks, cs: seq<int>, rest: seq<int>)
    requires |m.opens| == |m.closes| == NBRA && IsSearch(t, eof, line, r, m) && ClassText(true, cs)
    requires t == ['[' as int, '^' as int] + cs + [']' as int, eof] + rest && eof != '[' as int
    ensures r == NoPattern <==> |cs| + 2 >= 128
    ensures r == NoMatch ==> forall k :: 0 <= k < |line| ==> line[k] in cs
    ensures r.Match? ==>
              && r.start < |line| && r.end == r.start + 1 && line[r.start] !in cs
              && forall k :: 0 <= k < r.start ==> line[k] in cs
  {
    hide Parse, ParsePattern, Encode, Matches, MarksRight, NextAtom;
    assert t == ['[' as int, '^' as int] + cs + [']' as int] + ([eof] + rest);
    ClassToken(t, eof, 0, [], true, cs, [eof] + rest);
    OneAtom(t, eof, NextAtom(t, eof, 0, []).value);
    OneCode(Node(Class(true, cs), false));
    if r != NoPattern { FirstAccepted(ParsePattern(t, eof).value, line, r, m); }
  }

  // A dot finds the first character there is.
  lemma FindsAny(t: seq<int>, eof: int, line: seq<int>, r: Outcome, m: Marks)
    requires |m.opens| == |m.closes| == NBRA && IsSearch(t, eof, line, r, m)
    requires |t| >= 2 && t[0] == '.' as int != eof == t[1]
    ensures r == if line == [] then NoMatch else Match(0, 1)
  {
    hide Parse, ParsePattern, Encode, Matches, MarksRight;
    OneAtom(t, eof, NextAtom(t, eof, 0, []).value);
    OneCode(Node(Dot, false));
    if r != NoPattern { FirstAccepted(ParsePattern(t, eof).value, line, r, m); }
    assert line != [] ==> Accepts(Dot, line[0]);
  }

  // Any other character finds its first occurrence, and so does a quoted one.
  lemma FindsCharacter(t: seq<int>, eof: int, line: seq<int>, r: Outcome, m: Marks, d: int)
    requires |m.opens| == |m.closes| == NBRA && IsSearch(t, eof, line, r, m) && t != [] && t[0] != eof
    requires || (&& |t| >= 2 && t[0] == d && t[1] == eof
                 && d !in {'\\' as int, '.' as int, '\n' as int, '*' as int, '$' as int, '[' as int, '^' as int})
             || (|t| >= 3 && t[0] == '\\' as int && t[1] == d && t[2] == eof
                 && d !in {'(' as int, ')' as int, '\n' as int})
    ensures r == NoMatch <==> d !in line
    ensures r != NoMatch ==>
              r.Match? && r.start < |line| && r.end == r.start + 1 && line[r.start] == d && d !in line[..r.start]
  {
    hide Parse, ParsePattern, Encode, Matches, MarksRight;
    OneAtom(t, eof, NextAtom(t, eof, 0, []).value);
    OneCode(Node(Chr(d), false));
    if r != NoPattern { FirstAccepted(ParsePattern(t, eof).value, line, r, m); }
  }

  // A dollar finds the end of the line.
  lemma FindsEnd(t: seq<int>, eof: int, line: seq<int>, r: Outcome, m: Marks)
    requires |m.opens| == |m.closes| == NBRA && IsSearch(t, eof, line, r, m)
    requires |t| >= 2 && t[0] == '$' as int != eof == t[1]
    ensures r == Match(|line|, |line|)
  {
    hide Parse, ParsePattern, Encode, Matches, MarksRight;
    var p := Pattern(false, [Node(EndOfLine, false)]);
    OneAtom(t, eof, NextAtom(t, eof, 0, []).value);
    OneCode(p.nodes[0]);
    NodeMeaning(p.nodes[0], [0], line, |line|, |line|);
    assert Found(p.nodes, false, line, |line|, [0], |line|);
    var c :| IsBest(p, line, r.start, c, r.end) && |c| == 1;
    NodeMeaning(p.nodes[0], c, line, r.start, r.end);
  }

  // With an anchor a class is looked for at the start of the line only.
  lemma FindsAtStart(t: seq<int>, eof: int, line: seq<int>, r: Outcome, m: Marks, cs: seq<int>, rest: seq<int>)
    requires |m.opens| == |m.closes| == NBRA && IsSearch(t, eof, line, r, m) && ClassText(false, cs)
    requires t == ['^' as int, '[' as int] + cs + [']' as int, eof] + rest && eof != '[' as int
    ensures r == if |cs| + 2 >= 128 then NoPattern else if line != [] && line[0] in cs then Match(0, 1) else NoMatch
  {
    hide Parse, ParsePattern, NextAtom, Encode, Matches, MarksRight;
    var n := Node(Class(false, cs), false);
    AnchoredText(t, eof, cs, rest);
    OneCode(n);
    if line != [] && line[0] in cs {
      NodeMeaning(n, [1], line, 0, 1);
      assert Found([n], true, line, 0, [1], 1);
    }
    if r.Match? {
      var c :| IsBest(Pattern(true, [n]), line, r.start, c, r.end) && |c| == 1;
      NodeMeaning(n, c, line, r.start, r.end);
    }
  }

  lemma AnchoredText(t: seq<int>, eof: int, cs: seq<int>, rest: seq<int>)
    requires ClassText(false, cs) && t == ['^' as int, '[' as int] + cs + [']' as int, eof] + rest && eof != '[' as int
    ensures ParsePattern(t, eof) == Some(Pattern(true, [Node(Class(false, cs), false)]))
  {
    hide Parse, NextAtom;
    var u := t[1..];
    assert u == ['[' as int] + cs + [']' as int] + ([eof] + rest);
    ClassToken(u, eof, 0, [], false, cs, [eof] + rest);
    OneAtom(u, eof, NextAtom(u, eof, 0, []).value);
  }

  // With a star it finds the longest run of such characters at the start of the line.
  lemma FindsRun(t: seq<int>, eof: int, line: seq<int>, r: Outcome, m: Marks, cs: seq<int>, rest: seq<int>)
    requires |m.opens| == |m.closes| == NBRA && IsSearch(t, eof, line, r, m) && ClassText(false, cs)
    requires t == ['[' as int] + cs + [']' as int, '*' as int, eof] + rest && eof !in {'[' as int, '*' as int}
    ensures r == NoPattern <==> |cs| + 2 >= 128
    ensures r != NoPattern ==>
              && r.Match? && r.start == 0 && r.end <= |line| && (forall k :: 0 <= k < r.end ==> line[k] in cs)
              && (r.end < |line| ==> line[r.end] !in cs)
  {
    hide Parse, ParsePattern, NextAtom, Encode, Matches, MarksRight;
    var n := Node(Class(false, cs), true);
    assert t == ['[' as int] + cs + [']' as int] + (['*' as int, eof] + rest);
    ClassToken(t, eof, 0, [], false, cs, ['*' as int, eof] + rest);
    StarredAtom(t, eof, NextAtom(t, eof, 0, []).value);
    OneCode(n);
    if r != NoPattern { LongestRun(Pattern(false, [n]), line, r, m); }
  }

  lemma LongestRun(p: Pattern, line: seq<int>, r: Outcome, m: Marks)
    requires |p.nodes| == 1 && p.nodes[0].star && Consumes(p.nodes[0].atom) && !p.anchored
    requires |m.opens| == |m.closes| == NBRA && IsMatch(p, line, r, m) && r != NoPattern
    ensures r.Match? && r.start == 0 && r.end <= |line|
    ensures forall k :: 0 <= k < r.end ==> Accepts(p.nodes[0].atom, line[k])
    ensures r.end < |line| ==> !Accepts(p.nodes[0].atom, line[r.end])
  {
    hide Matches, MarksRight;
    var n := p.nodes[0];
    assert p.nodes == [n];
    NodeMeaning(n, [0], line, 0, 0);
    assert Found(p.nodes, false, line, 0, [0], 0);
    var c :| IsBest(p, line, r.start, c, r.end) && |c| == 1;
    NodeMeaning(n, c, line, r.start, r.end);
    forall e: nat | AllOf(n.atom, line, e) ensures e <= r.end {
      NodeMeaning(n, [e], line, 0, e);
      assert Found(p.nodes, false, line, 0, [e], e);
    }
    if r.end < |line| {
      assert AllOf(n.atom, line, r.end + 1) <==> Accepts(n.atom, line[r.end]);
    }
  }

  ghost predicate AllOf(a: Atom, line: seq<int>, e: nat)
  {
    e <= |line| && forall k :: 0 <= k < e ==> Accepts(a, line[k])
  }

  // Brackets around a class are marked where what it found begins and ends.
  lemma FindsMarked(t: seq<int>, eof: int, line: seq<int>, r: Outcome, m: Marks, cs: seq<int>, rest: seq<int>)
    requires |m.opens| == |m.closes| == NBRA && IsSearch(t, eof, line, r, m) && ClassText(false, cs)
    requires t == ['\\' as int, '(' as int, '[' as int] + cs + [']' as int, '\\' as int, ')' as int, eof] + rest
    requires eof !in {'\\' as int, '[' as int}
    ensures r == NoPattern <==> |cs| + 6 >= 128
    ensures r == NoMatch ==> forall k :: 0 <= k < |line| ==> line[k] !in cs
    ensures r.Match? ==>
              && r.start < |line| && r.end == r.start + 1 && line[r.start] in cs
              && m.opens[0] == r.start && m.closes[0] == r.end
              && forall k :: 0 <= k < r.start ==> line[k] !in cs
  {
    hide Parse, ParsePattern, NextAtom, Encode, Matches, MarksRight, EncodeNode;
    MarkedText(t, eof, cs, rest);
    var p := ParsePattern(t, eof).value;
    MarkedCode(cs);
    forall k | 0 <= k < |line| && line[k] in cs ensures Found(p.nodes, false, line, k, [0, 1, 0], k + 1) {
      MarkedMeaning(cs, [0, 1, 0], line, k, k + 1);
    }
    if r.Match? {
      var c :| IsBest(p, line, r.start, c, r.end) && |c| == |p.nodes| && MarksRight(m, p.nodes, c, r.start);
      MarkedMeaning(cs, c, line, r.start, r.end);
      MarkedMarks(cs, m, r.start);
    }
  }

  ghost function Marked(cs: seq<int>): seq<Node>
  {
    [Node(Open(0), false), Node(Class(false, cs), false), Node(Close(0), false)]
  }

  lemma MarkedText(t: seq<int>, eof: int, cs: seq<int>, rest: seq<int>)
    requires ClassText(false, cs) && eof !in {'\\' as int, '[' as int}
    requires t == ['\\' as int, '(' as int, '[' as int] + cs + [']' as int, '\\' as int, ')' as int, eof] + rest
    ensures ParsePattern(t, eof) == Some(Pattern(false, Marked(cs)))
  {
    hide Parse, ClassChars, NextAtom;
    var ns, none: seq<nat>, open: seq<nat> := Marked(cs), [], [0];
    var last := ['\\' as int, ')' as int, eof] + rest;
    var u := ['[' as int] + cs + [']' as int] + last;
    assert t[2..] == u && u[|cs| + 2..] == last && t[0] == '\\' as int && t[1] == '(' as int;
    Closes(last, eof, ns[1]);
    ClassToken(u, eof, 1, open, false, cs, last);
    ParseStep(u, eof, 1, open, Some(ns[0]), NextAtom(u, eof, 1, open).value, last, [ns[1], ns[2]]);
    assert [ns[0]] + [ns[1], ns[2]] == ns;
    Opens(t, eof);
    ParseStep(t, eof, 0, none, None, Token(Open(0), 2, 1, open), u, ns);
  }

  lemma Opens(t: seq<int>, eof: int)
    requires |t| >= 2 && t[0] == '\\' as int && t[1] == '(' as int
    ensures NextAtom(t, eof, 0, []) == Some(Token(Open(0), 2, 1, [0]))
  {
    var none: seq<nat> := [];
    assert [0] + none == [0];
  }

  lemma Closes(t: seq<int>, eof: int, prev: Node)
    requires |t| >= 3 && t[0] == '\\' as int && t[1] == ')' as int && t[2] == eof != '\\' as int
    ensures Parse(t, eof, 1, [0], Some(prev)) == Some([prev, Node(Close(0), false)])
  {
    hide Parse;
    var none: seq<nat>, open: seq<nat>, n := [], [0], Node(Close(0), false);
    assert open[1..] == none;
    ParseDelimiter(t[2..], eof, 1, none, Some(n));
    assert AsList(Some(n)) + [] == [n];
    ParseStep(t, eof, 1, open, Some(prev), Token(Close(0), 2, 1, none), t[2..], [n]);
    assert [prev] + [n] == [prev, n];
  }

  // One atom, and then the rest.
  lemma ParseStep(t: seq<int>, eof: int, nbra: nat, stack: seq<nat>, prev: Option<Node>, k: Token, after: seq<int>,
                  ns: seq<Node>)
    requires t != [] && t[0] !in {eof, '*' as int} && NextAtom(t, eof, nbra, stack) == Some(k)
    requires k.len <= |t| && t[k.len..] == after
    requires Parse(after, eof, k.nbra, k.stack, Some(Node(k.atom, false))) == Some(ns)
    ensures Parse(t, eof, nbra, stack, prev) == Some(if prev.None? then ns else [prev.value] + ns)
  {
    hide NextAtom;
    ParseAtomStep(t, eof, nbra, stack, prev);
    assert AsList(None) + ns == ns;
  }

  lemma MarkedCode(cs: seq<int>)
    ensures |Encode(Marked(cs))| == |cs| + 6
  {
    var ns := Marked(cs);
    assert ns == [ns[0]] + [ns[1]] + [ns[2]];
    OneCode(ns[0]);
    EncodeAppend([ns[0]], ns[1]);
    EncodeAppend([ns[0]] + [ns[1]], ns[2]);
  }

  lemma MarkedMeaning(cs: seq<int>, c: seq<nat>, line: seq<int>, i: nat, j: nat)
    requires |c| == 3 && i <= |line|
    ensures Matches(Marked(cs), c, line, i, j) <==> c == [0, 1, 0] && i < |line| && j == i + 1 && line[i] in cs
  {
    hide Matches, Sum;
    var ns := Marked(cs);
    assert ns == [ns[0]] + ([ns[1]] + [ns[2]]) && c == [c[0]] + ([c[1]] + [c[2]]);
    MatchesBoth([ns[0]], [ns[1]] + [ns[2]], [c[0]], [c[1]] + [c[2]], line, i, j);
    SumOne(c[0]);
    NodeMeaning(ns[0], [c[0]], line, i, i + c[0]);
    if c[0] == 0 {
      MatchesBoth([ns[1]], [ns[2]], [c[1]], [c[2]], line, i, j);
      SumOne(c[1]);
      NodeMeaning(ns[1], [c[1]], line, i, i + c[1]);
      if i + c[1] <= |line| { NodeMeaning(ns[2], [c[2]], line, i + c[1], j); }
    }
  }

  lemma SumOne(n: nat)
    ensures Sum([n]) == n
  {
  }

  lemma MarkedMarks(cs: seq<int>, m: Marks, i: nat)
    requires |m.opens| == |m.closes| == NBRA && MarksRight(m, Marked(cs), [0, 1, 0], i)
    ensures m.opens[0] == i && m.closes[0] == i + 1
  {
    var ns, c: seq<nat> := Marked(cs), [0, 1, 0];
    assert ValidBracket(ns[0].atom) && ValidBracket(ns[2].atom);
    assert c[..0] == [] && c[..2] == [0, 1];
    assert Sum([0, 1]) == 1;
  }

  // A starred dollar is not at the end of the pattern, and stands for itself.
  lemma FindsDollars(t: seq<int>, eof: int, line: seq<int>, r: Outcome, m: Marks)
    requires |m.opens| == |m.closes| == NBRA && IsSearch(t, eof, line, r, m)
    requires |t| >= 3 && t[0] == '$' as int && t[1] == '*' as int && t[2] == eof && eof !in {'$' as int, '*' as int}
    ensures r.Match? && r.start == 0 && r.end <= |line| && forall k :: 0 <= k < r.end ==> line[k] == '$' as int
    ensures r.end < |line| ==> line[r.end] != '$' as int
  {
    hide Parse, ParsePattern, Encode, Matches, MarksRight;
    var n := Node(Chr('$' as int), true);
    StarredAtom(t, eof, NextAtom(t, eof, 0, []).value);
    OneCode(n);
    LongestRun(Pattern(false, [n]), line, r, m);
  }

  // Texts that denote no pattern: a star, a newline or a closing bracket at the start, a class
  // that does not end, and a star after a bracket.
  lemma Refused(t: seq<int>, eof: int, line: seq<int>, r: Outcome, m: Marks)
    requires |m.opens| == |m.closes| == NBRA && IsSearch(t, eof, line, r, m)
    requires || eof !in t
             || (t[0] != eof && t[0] in {'*' as int, '\n' as int})
             || (|t| >= 2 && t[0] == '\\' as int != eof && t[1] in {')' as int, '\n' as int})
             || (t[0] == '[' as int != eof && ']' as int !in t)
             || (|t| >= 3 && t[..3] == ['\\' as int, '(' as int, '*' as int] && eof !in t[..3])
    ensures r == NoPattern
  {
    hide NextAtom, Encode, IsMatch;
    if eof !in t {
      NoDelimiter(t, eof, 0, [], None);
      if t != [] { NoDelimiter(t[1..], eof, 0, [], None); }
    } else if t[0] == '[' as int && ']' as int !in t {
      OpenClass(t, eof);
    } else if |t| >= 3 && t[..3] == ['\\' as int, '(' as int, '*' as int] {
      assert t[0] == t[..3][0] && t[1] == t[..3][1] && t[2] == t[..3][2];
      StarredBracket(t, eof);
    } else {
      BadFirst(t, eof);
    }
  }

  lemma {:induction false} NoDelimiter(t: seq<int>, eof: int, nbra: nat, stack: seq<nat>, prev: Option<Node>)
    requires eof !in t
    ensures Parse(t, eof, nbra, stack, prev).None?
    decreases |t|
  {
    hide NextAtom;
    if t != [] {
      if t[0] == STARCH {
        if prev.Some? { NoDelimiter(t[1..], eof, nbra, stack, Some(prev.value.(star := true))); }
      } else {
        var k := NextAtom(t, eof, nbra, stack);
        if k.Some? {
          NoDelimiter(t[k.value.len..], eof, k.value.nbra, k.value.stack, Some(Node(k.value.atom, false)));
        }
      }
    }
  }

  lemma OpenClass(t: seq<int>, eof: int)
    requires t != [] && t[0] == '[' as int != eof && ']' as int !in t
    ensures ParsePattern(t, eof).None?
  {
    var from := if |t| > 1 && t[1] == '^' as int then 2 else 1;
    NoBracket(t[from..], true);
  }

  lemma {:induction false} NoBracket(t: seq<int>, first: bool)
    requires ']' as int !in t
    ensures ClassChars(t, first).None?
  {
    if t != [] { NoBracket(t[1..], false); }
  }

  lemma StarredBracket(t: seq<int>, eof: int)
    requires |t| >= 3 && t[0] == '\\' as int && t[1] == '(' as int && t[2] == '*' as int && eof !in t[..3]
    ensures ParsePattern(t, eof).None?
  {
    hide NextAtom;
    assert t[..3] == [t[0], t[1], t[2]];
    Opens(t, eof);
    ParseAtomStep(t, eof, 0, [], None);
    assert t[2..][0] == STARCH;
  }

  lemma BadFirst(t: seq<int>, eof: int)
    requires t != [] && t[0] != eof
    requires || t[0] in {'*' as int, '\n' as int}
             || (|t| >= 2 && t[0] == '\\' as int && t[1] in {')' as int, '\n' as int})
    ensures ParsePattern(t, eof).None?
  {
  }

  // ---------- words ----------

  // Ordinary characters, which stand for themselves wherever they are.
  ghost predicate Ordinary(w: seq<int>, eof: int)
  {
    forall i :: 0 <= i < |w| ==>
      w[i] !in {'\\' as int, '.' as int, '\n' as int, '*' as int, '$' as int, '[' as int, eof}
  }

  ghost function Literals(w: seq<int>): seq<Node>
  {
    if w == [] then [] else [Node(Chr(w[0]), false)] + Literals(w[1..])
  }

  lemma {:induction false} WordText(w: seq<int>, eof: int, rest: seq<int>, prev: Option<Node>)
    requires Ordinary(w, eof)
    ensures Parse(w + [eof] + rest, eof, 0, [], prev) == Some(AsList(prev) + Literals(w))
    decreases |w|
  {
    hide Parse;
    var t := w + [eof] + rest;
    if w == [] {
      ParseDelimiter(t, eof, 0, [], prev);
    } else {
      var n := Some(Node(Chr(w[0]), false));
      assert t[0] == w[0] && t[1..] == w[1..] + [eof] + rest;
      WordText(w[1..], eof, rest, n);
      ParseAtomStep(t, eof, 0, [], prev);
      assert AsList(n) + Literals(w[1..]) == Literals(w);
    }
  }

  lemma {:induction false} WordCode(w: seq<int>)
    ensures |Encode(Literals(w))| == 2 * |w|
  {
    hide EncodeNode;
    if w != [] {
      EncodeCons(Literals(w));
      assert Literals(w)[1..] == Literals(w[1..]);
      WordCode(w[1..]);
      assert |EncodeNode(Node(Chr(w[0]), false))| == 2 by { TwoBytes(w[0]); }
    }
  }

  lemma TwoBytes(c: int)
    ensures |EncodeNode(Node(Chr(c), false))| == 2
  {
  }

  // Where the word is.
  ghost predicate Occurs(w: seq<int>, line: seq<int>, i: nat) { i + |w| <= |line| && line[i..i + |w|] == w }

  ghost function Ones(n: nat): seq<nat> { if n == 0 then [] else [1] + Ones(n - 1) }

  lemma {:induction false} WordMeaning(w: seq<int>, c: seq<nat>, line: seq<int>, i: nat, j: nat)
    requires i <= |line|
    ensures Matches(Literals(w), c, line, i, j) <==> c == Ones(|w|) && j == i + |w| && Occurs(w, line, i)
    decreases |w|
  {
    if w == [] {
      assert line[i..i] == [];
    } else {
      var ns, d := Literals(w), Ones(|w| - 1);
      assert ns[1..] == Literals(w[1..]) && Ones(|w|) == [1] + d && Ones(|w|)[1..] == d;
      if |c| > 0 { assert c == [c[0]] + c[1..]; }
      OccursNext(w, line, i);
      if |c| > 0 && i < |line| { WordMeaning(w[1..], c[1..], line, i + 1, j); }
    }
  }

  lemma OccursNext(w: seq<int>, line: seq<int>, i: nat)
    requires w != []
    ensures Occurs(w, line, i) <==> i < |line| && line[i] == w[0] && Occurs(w[1..], line, i + 1)
  {
    assert w == [w[0]] + w[1..];
    if i + |w| <= |line| {
      assert line[i..i + |w|] == [line[i]] + line[i + 1..i + 1 + |w[1..]|];
    }
  }

  // A word finds its first occurrence in the line.
  lemma FindsWord(t: seq<int>, eof: int, line: seq<int>, r: Outcome, m: Marks, w: seq<int>, rest: seq<int>)
    requires |m.opens| == |m.closes| == NBRA && IsSearch(t, eof, line, r, m) && w != [] && w[0] != '^' as int
    requires Ordinary(w, eof) && t == w + [eof] + rest
    ensures r == NoPattern <==> 2 * |w| >= 128
    ensures r == NoMatch ==> forall s: nat :: !Occurs(w, line, s)
    ensures r.Match? ==>
              && r.end == r.start + |w| && Occurs(w, line, r.start)
              && forall s: nat :: s < r.start ==> !Occurs(w, line, s)
  {
    hide Parse, Encode, Matches, MarksRight;
    WordText(w, eof, rest, None);
    WordCode(w);
    assert t[0] == w[0] && AsList(None) + Literals(w) == Literals(w);
    var p := Pattern(false, Literals(w));
    assert ParsePattern(t, eof) == Some(p);
    forall s: nat | Occurs(w, line, s) ensures Found(p.nodes, false, line, s, Ones(|w|), s + |w|) {
      WordMeaning(w, Ones(|w|), line, s, s + |w|);
    }
    if r.Match? {
      var c :| IsBest(p, line, r.start, c, r.end);
      WordMeaning(w, c, line, r.start, r.end);
    }
  }
}
