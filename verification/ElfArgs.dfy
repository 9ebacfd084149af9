/**
 The arguments on the stack of a new program (kernel/api/elf32.c): argc, the pointers to the
 vectors, the vectors argv, envp and auxv, the strings, and the program header table. The
 image is built in a kernel buffer with two moving pointers, and its pointers are user
 addresses, from `low` on. The layout is that of chapter 3, "Process Initialization", of the
 System V ABI Intel386 supplement.
 */
module ElfArgs {
  import opened Words

  type Text = seq<Byte>

  const AT_NULL := 0
  const AT_PHDR := 3

  datatype Aux = Aux(kind: nat, value: nat)

  // What goes on the stack; the entry AT_PHDR stands for the program header table.
  datatype Args = Args(argv: seq<Text>, envp: seq<Text>, auxv: seq<Aux>, pht: Bytes)

  ghost predicate IsText(s: Text) { forall i :: 0 <= i < |s| ==> s[i] != 0 }

  ghost predicate ArgsOk(a: Args)
  {
    && (forall i :: 0 <= i < |a.argv| ==> IsText(a.argv[i])) && (forall i :: 0 <= i < |a.envp| ==> IsText(a.envp[i]))
    && forall i :: 0 <= i < |a.auxv| ==> 0 != a.auxv[i].kind < WORD && a.auxv[i].value < WORD
  }

  function Headers(l: seq<Aux>): nat
  {
    if l == [] then 0 else (if l[0].kind == AT_PHDR then 1 else 0) + Headers(l[1..])
  }

  // ---------- the parts of the image ----------

  function Strings(l: seq<Text>): Bytes { if l == [] then [] else l[0] + [0] + Strings(l[1..]) }

  // Pointers to the strings of a list that begin at address `at`.
  function Pointers(l: seq<Text>, at: nat): (r: Bytes)
    requires at + |Strings(l)| < WORD
    ensures |r| == 4 * |l|
  {
    if l == [] then [] else Encode(at) + Pointers(l[1..], at + |l[0]| + 1)
  }

  // The entries of auxv, with the program header table at address `at`.
  function Entries(l: seq<Aux>, at: nat): (r: Bytes)
    requires at < WORD && forall i :: 0 <= i < |l| ==> l[i].kind < WORD && l[i].value < WORD
    ensures |r| == 8 * |l|
  {
    if l == [] then []
    else Encode(l[0].kind) + Encode(if l[0].kind == AT_PHDR then at else l[0].value) + Entries(l[1..], at)
  }

  function VectorSize(a: Args): nat { 4 * (|a.argv| + 1) + 4 * (|a.envp| + 1) + 8 * (|a.auxv| + 1) }

  // The size that _elf32_calc_argsize computes.
  function ArgSize(a: Args): nat
  {
    16 + VectorSize(a) + |Strings(a.argv)| + |Strings(a.envp)| + Times(Headers(a.auxv), |a.pht|)
  }

  function Times(n: nat, m: nat): nat { n * m }

  // Where the argument strings, the environment strings and the header table are.
  function ArgvAt(a: Args, low: nat): nat { low + 16 + VectorSize(a) }
  function EnvpAt(a: Args, low: nat): nat { ArgvAt(a, low) + |Strings(a.argv)| }
  function PhtAt(a: Args, low: nat): nat { EnvpAt(a, low) + |Strings(a.envp)| }

  // argc and the pointers to the vectors
  function Start(a: Args, low: nat): (r: Bytes)
    requires low + 16 + VectorSize(a) < WORD
    ensures |r| == 16
  {
    Encode(|a.argv|) + Encode(low + 16) + Encode(low + 16 + 4 * (|a.argv| + 1))
    + Encode(low + 16 + 4 * (|a.argv| + 1) + 4 * (|a.envp| + 1))
  }

  // All before the strings but the value of the last entry of auxv, which is not written.
  function Vectors(a: Args, low: nat): (r: Bytes)
    requires ArgsOk(a) && low + ArgSize(a) < WORD
    ensures |r| == 12 + VectorSize(a)
  {
    Start(a, low)
    + (Pointers(a.argv, ArgvAt(a, low)) + Encode(0))
    + (Pointers(a.envp, EnvpAt(a, low)) + Encode(0))
    + (Entries(a.auxv, PhtAt(a, low)) + Encode(AT_NULL))
  }

  function Tail(a: Args): Bytes { Strings(a.argv) + Strings(a.envp) + if Headers(a.auxv) > 0 then a.pht else [] }

  // The image, whatever is in the four bytes that are not written.
  ghost predicate IsImage(a: Args, low: nat, mem: Bytes)
    requires ArgsOk(a) && low + ArgSize(a) < WORD
  {
    && |mem| == ArgSize(a) && Headers(a.auxv) <= 1
    && mem[..12 + VectorSize(a)] == Vectors(a, low) && mem[16 + VectorSize(a)..] == Tail(a)
  }

  // ---------- computing the size ----------

  // The size of the strings of a vector.
  method StringsSize(l: seq<Text>) returns (size: nat)
    ensures size == |Strings(l)|
  {
    size := 0;
    var i := 0;
    assert l[0..] == l;
    while i < |l|
      invariant 0 <= i <= |l| && size + |Strings(l[i..])| == |Strings(l)|
    {
      assert l[i..][1..] == l[i + 1..];
      size := size + |l[i]| + 1;
      i := i + 1;
    }
  }

  // _elf32_calc_argsize
  method CalcArgSize(a: Args) returns (size: nat)
    ensures size == ArgSize(a)
  {
    size := StringsSize(a.argv);
    size := size + (|a.argv| + 1) * 4;
    var more := StringsSize(a.envp);
    size := size + more + (|a.envp| + 1) * 4;
    ghost var base := size;
    var i := 0;
    assert a.auxv[0..] == a.auxv;
    while i < |a.auxv|
      invariant 0 <= i <= |a.auxv| && Headers(a.auxv[i..]) <= Headers(a.auxv)
      invariant size == base + Times(Headers(a.auxv) - Headers(a.auxv[i..]), |a.pht|)
    {
      assert a.auxv[i..][1..] == a.auxv[i + 1..];
      TimesNext(Headers(a.auxv) - Headers(a.auxv[i..]), |a.pht|);
      if a.auxv[i].kind == AT_PHDR {
        size := size + |a.pht|;
      }
      i := i + 1;
    }
    size := size + (|a.auxv| + 1) * 8;
    size := size + 4;
    size := size + 3 * 4;
  }

  lemma TimesNext(n: nat, m: nat)
    ensures Times(n + 1, m) == Times(n, m) + m
  {
  }

  // ---------- building it ----------

  // The vectors are filled up to |v| and the strings, from `base`, up to `base + |t|`.
  ghost predicate Filled(b: Bytes, v: Bytes, base: nat, t: Bytes)
  {
    |v| <= base && base + |t| <= |b| && b[..|v|] == v && b[base..base + |t|] == t
  }

  lemma FillVector(b: Bytes, v: Bytes, base: nat, t: Bytes, x: Bytes)
    requires Filled(b, v, base, t) && |v| + |x| <= base
    ensures Filled(Spliced(b, |v|, x), v + x, base, t)
  {
    var r := Spliced(b, |v|, x);
    assert r[..|v| + |x|] == v + x;
    assert r[base..base + |t|] == b[base..base + |t|];
  }

  lemma FillStrings(b: Bytes, v: Bytes, base: nat, t: Bytes, x: Bytes)
    requires Filled(b, v, base, t) && base + |t| + |x| <= |b|
    ensures Filled(Spliced(b, base + |t|, x), v, base, t + x)
  {
    var r := Spliced(b, base + |t|, x);
    assert r[..|v|] == b[..|v|];
    assert r[base..base + |t + x|] == t + x;
  }

  // Bytes put into the buffer.
  method Put(buf: array<Byte>, off: nat, x: Bytes)
    requires off + |x| <= buf.Length
    modifies buf
    ensures buf[..] == Spliced(old(buf[..]), off, x)
  {
    var i := 0;
    while i < |x|
      invariant 0 <= i <= |x|
      invariant forall j :: 0 <= j < buf.Length ==> buf[j] == if off <= j < off + i then x[j - off] else old(buf[j])
    {
      buf[off + i] := x[i];
      i := i + 1;
    }
  }

  // One string and its pointer.
  method PutString(buf: array<Byte>, vec: nat, str: nat, vstr: nat, s: Text, ghost v: Bytes, ghost base: nat,
                   ghost t: Bytes)
    requires Filled(buf[..], v, base, t) && vec == |v| && str == base + |t| && vec + 4 <= base
    requires str + |s| + 1 <= buf.Length && vstr < WORD
    modifies buf
    ensures Filled(buf[..], v + Encode(vstr), base, t + (s + [0]))
  {
    FillStrings(buf[..], v, base, t, s + [0]);
    Put(buf, str, s + [0]);
    FillVector(buf[..], v, base, t + (s + [0]), Encode(vstr));
    Put(buf, vec, Encode(vstr));
  }

  lemma NoStrings(at: nat)
    requires at < WORD
    ensures Strings([]) == [] && Pointers([], at) == []
  {
  }

  lemma StringsStep(l: seq<Text>, i: nat, at: nat, w: Bytes, u: Bytes)
    requires i < |l| && at + |Strings(l[i..])| < WORD
    ensures |Strings(l[i..])| == |l[i]| + 1 + |Strings(l[i + 1..])|
    ensures u + Strings(l[i..]) == u + (l[i] + [0]) + Strings(l[i + 1..])
    ensures w + Pointers(l[i..], at) == w + Encode(at) + Pointers(l[i + 1..], at + |l[i]| + 1)
  {
    hide Encode;
    assert l[i..][0] == l[i] && l[i..][1..] == l[i + 1..];
  }

  // The loop that copies one list of strings, and the null pointer after it.
  method PutStrings(buf: array<Byte>, vec0: nat, str0: nat, vstr0: nat, l: seq<Text>, ghost v: Bytes, ghost base: nat,
                    ghost t: Bytes)
    returns (vec: nat, str: nat, vstr: nat)
    requires Filled(buf[..], v, base, t) && vec0 == |v| && str0 == base + |t| && vec0 + 4 * (|l| + 1) <= base
    requires str0 + |Strings(l)| <= buf.Length && vstr0 + |Strings(l)| < WORD
    modifies buf
    ensures vec == vec0 + 4 * (|l| + 1) && str == str0 + |Strings(l)| && vstr == vstr0 + |Strings(l)|
    ensures Filled(buf[..], v + (Pointers(l, vstr0) + Encode(0)), base, t + Strings(l))
  {
    hide Filled, Encode, Strings, Pointers;
    vec, str, vstr := vec0, str0, vstr0;
    var i := 0;
    assert l[0..] == l;
    ghost var w, u := v, t;
    while i < |l|
      invariant 0 <= i <= |l| && vec == |w| == vec0 + 4 * i && str == base + |u| && vstr - vstr0 == str - str0
      invariant str + |Strings(l[i..])| == str0 + |Strings(l)| && u + Strings(l[i..]) == t + Strings(l)
      invariant w + Pointers(l[i..], vstr) == v + Pointers(l, vstr0)
      invariant Filled(buf[..], w, base, u)
    {
      StringsStep(l, i, vstr, w, u);
      PutString(buf, vec, str, vstr, l[i], w, base, u);
      w, u := w + Encode(vstr), u + (l[i] + [0]);
      str, vstr, vec := str + |l[i]| + 1, vstr + |l[i]| + 1, vec + 4;
      i := i + 1;
    }
    assert l[i..] == [] && w + [] == w && u + [] == u;
    NoStrings(vstr);
    assert w + Encode(0) == v + (Pointers(l, vstr0) + Encode(0));
    FillNull(buf[..], w, base, u);
    Put(buf, vec, Encode(0));
    vec := vec + 4;
  }

  lemma FillNull(b: Bytes, v: Bytes, base: nat, t: Bytes)
    requires Filled(b, v, base, t) && |v| + 4 <= base
    ensures |v| + 4 <= |b| && Filled(Spliced(b, |v|, Encode(0)), v + Encode(0), base, t)
  {
    FillVector(b, v, base, t, Encode(0));
  }

  lemma FillEntry(b: Bytes, v: Bytes, base: nat, t: Bytes, e: Aux)
    requires Filled(b, v, base, t) && |v| + 8 <= base && e.kind < WORD && e.value < WORD
    ensures |v| + 8 <= |b| && Filled(Spliced(b, |v|, Encode(e.kind) + Encode(e.value)),
                                     v + (Encode(e.kind) + Encode(e.value)), base, t)
  {
    FillVector(b, v, base, t, Encode(e.kind) + Encode(e.value));
  }

  // The pointer of an entry is overwritten.
  lemma FillPointer(b: Bytes, v: Bytes, base: nat, t: Bytes, kind: nat, value: nat, at: nat)
    requires kind < WORD && value < WORD && at < WORD && Filled(b, v + (Encode(kind) + Encode(value)), base, t)
    ensures |v| + 8 <= |b| && Filled(Spliced(b, |v| + 4, Encode(at)), v + (Encode(kind) + Encode(at)), base, t)
  {
    var w := v + (Encode(kind) + Encode(value));
    assert b[..|w|] == w;
    assert b[..|v| + 4] == v + Encode(kind) by {
      assert b[..|v| + 4] == b[..|w|][..|v| + 4];
      assert w[..|v| + 4] == v + Encode(kind);
    }
    FilledPrefix(b, w, base, t, v + Encode(kind));
    FillVector(b, v + Encode(kind), base, t, Encode(at));
    assert v + Encode(kind) + Encode(at) == v + (Encode(kind) + Encode(at));
  }

  lemma FilledPrefix(b: Bytes, w: Bytes, base: nat, t: Bytes, v: Bytes)
    requires Filled(b, w, base, t) && |v| <= |w| && b[..|v|] == v
    ensures Filled(b, v, base, t)
  {
  }

  function EntryBytes(e: Aux, at: nat): (r: Bytes)
    requires e.kind < WORD && e.value < WORD && at < WORD
    ensures |r| == 8
  {
    Encode(e.kind) + Encode(if e.kind == AT_PHDR then at else e.value)
  }

  lemma NoEntries(at: nat)
    requires at < WORD
    ensures Entries([], at) == [] && Headers([]) == 0
  {
  }

  lemma HeadersStep(l: seq<Aux>, i: nat)
    requires i < |l|
    ensures Headers(l[i..]) == (if l[i].kind == AT_PHDR then 1 else 0) + Headers(l[i + 1..])
  {
    assert l[i..][1..] == l[i + 1..];
  }

  lemma EntriesStep(l: seq<Aux>, i: nat, at: nat, w: Bytes)
    requires i < |l| && at < WORD && forall i :: 0 <= i < |l| ==> l[i].kind < WORD && l[i].value < WORD
    ensures w + Entries(l[i..], at) == w + EntryBytes(l[i], at) + Entries(l[i + 1..], at)
  {
    hide Encode;
    assert l[i..][0] == l[i] && l[i..][1..] == l[i + 1..];
  }

  // One entry, with the header table if it stands for it.
  method PutEntry(buf: array<Byte>, vec: nat, str: nat, vstr: nat, e: Aux, pht: Bytes, ghost v: Bytes, ghost base: nat,
                  ghost t: Bytes)
    requires Filled(buf[..], v, base, t) && vec == |v| && vec + 8 <= base && e.kind < WORD && e.value < WORD
    requires vstr < WORD
    requires e.kind == AT_PHDR ==> str == base + |t| && str + |pht| <= buf.Length
    modifies buf
    ensures Filled(buf[..], v + EntryBytes(e, vstr), base, if e.kind == AT_PHDR then t + pht else t)
  {
    hide Filled, Encode;
    FillEntry(buf[..], v, base, t, e);
    Put(buf, vec, Encode(e.kind) + Encode(e.value));
    if e.kind == AT_PHDR {
      FillStrings(buf[..], v + (Encode(e.kind) + Encode(e.value)), base, t, pht);
      Put(buf, str, pht);
      FillPointer(buf[..], v, base, t + pht, e.kind, e.value, vstr);
      Put(buf, vec + 4, Encode(vstr));
    }
  }

  // The loop that copies auxv, and the type of the entry that ends it. The header table is
  // put after the strings.
  method PutAux(buf: array<Byte>, vec0: nat, str: nat, vstr: nat, l: seq<Aux>, pht: Bytes, ghost v: Bytes,
                ghost base: nat, ghost t: Bytes)
    requires Filled(buf[..], v, base, t) && vec0 == |v| && str == base + |t| && vec0 + 8 * |l| + 4 <= base
    requires Headers(l) <= 1 && str + Times(Headers(l), |pht|) <= buf.Length && vstr < WORD
    requires forall i :: 0 <= i < |l| ==> l[i].kind < WORD && l[i].value < WORD
    modifies buf
    ensures Filled(buf[..], v + (Entries(l, vstr) + Encode(AT_NULL)), base, t + if Headers(l) > 0 then pht else [])
  {
    hide Filled, Encode, Entries, Headers, EntryBytes;
    var vec, i := vec0, 0;
    ghost var w, u := v, t;
    assert l[0..] == l && t + [] == t;
    TimesNext(0, |pht|);
    while i < |l|
      invariant 0 <= i <= |l| && vec == |w| == vec0 + 8 * i && Headers(l[i..]) <= Headers(l)
      invariant u == t + if Headers(l[i..]) < Headers(l) then pht else []
      invariant w + Entries(l[i..], vstr) == v + Entries(l, vstr)
      invariant Filled(buf[..], w, base, u)
    {
      var e := l[i];
      HeadersStep(l, i);
      EntriesStep(l, i, vstr, w);
      PutEntry(buf, vec, str, vstr, e, pht, w, base, u);
      u := if e.kind == AT_PHDR then u + pht else u;
      w := w + EntryBytes(e, vstr);
      vec := vec + 8;
      i := i + 1;
    }
    assert l[i..] == [] && w + [] == w;
    NoEntries(vstr);
    assert w + Encode(AT_NULL) == v + (Entries(l, vstr) + Encode(AT_NULL));
    FillNull(buf[..], w, base, u);
    Put(buf, vec, Encode(AT_NULL));
  }

  // _elf32_load_args, up to writing the buffer to user space
  method LoadArgs(buf: array<Byte>, low: nat, a: Args)
    requires ArgsOk(a) && Headers(a.auxv) <= 1 && low + ArgSize(a) < WORD && buf.Length == ArgSize(a)
    modifies buf
    ensures IsImage(a, low, buf[..])
  {
    hide Filled, Encode, Strings, Entries;
    var argc, envc := |a.argv|, |a.envp|;
    var veclen := (argc + 1 + envc + 1) * 4 + (|a.auxv| + 1) * 8;
    var vec, vvec := 16, low + 16;
    var str, vstr := vec + veclen, vvec + veclen;
    ghost var base := str;
    PutStart(buf, low, a);
    ghost var v := Start(a, low);
    var vec1, str1, vstr1 := PutStrings(buf, vec, str, vstr, a.argv, v, base, []);
    ghost var v1, t1 := v + (Pointers(a.argv, ArgvAt(a, low)) + Encode(0)), [] + Strings(a.argv);
    var vec2, str2, vstr2 := PutStrings(buf, vec1, str1, vstr1, a.envp, v1, base, t1);
    ghost var v2, t2 := v1 + (Pointers(a.envp, EnvpAt(a, low)) + Encode(0)), t1 + Strings(a.envp);
    PutAux(buf, vec2, str2, vstr2, a.auxv, a.pht, v2, base, t2);
    ImageIs(a, low, buf[..]);
  }

  method PutStart(buf: array<Byte>, low: nat, a: Args)
    requires ArgsOk(a) && low + ArgSize(a) < WORD && buf.Length == ArgSize(a)
    modifies buf
    ensures Filled(buf[..], Start(a, low), 16 + VectorSize(a), [])
  {
    var argc, envc := |a.argv|, |a.envp|;
    var vvec := low + 16;
    Put(buf, 0, Encode(argc));
    Put(buf, 4, Encode(vvec));
    Put(buf, 8, Encode(vvec + (argc + 1) * 4));
    Put(buf, 12, Encode(vvec + (argc + 1 + envc + 1) * 4));
    assert buf[..16] == Start(a, low);
  }

  lemma ImageIs(a: Args, low: nat, b: Bytes)
    requires ArgsOk(a) && Headers(a.auxv) <= 1 && low + ArgSize(a) < WORD && |b| == ArgSize(a)
    requires Filled(b, Vectors(a, low), 16 + VectorSize(a),
                    [] + Strings(a.argv) + Strings(a.envp) + if Headers(a.auxv) > 0 then a.pht else [])
    ensures IsImage(a, low, b)
  {
    assert [] + Strings(a.argv) == Strings(a.argv);
    TimesNext(0, |a.pht|);
    assert |Tail(a)| == ArgSize(a) - 16 - VectorSize(a);
    assert b[16 + VectorSize(a)..] == b[16 + VectorSize(a)..16 + VectorSize(a) + |Tail(a)|];
  }

  // ---------- reading it back through user addresses ----------

  function WordAt(mem: Bytes, off: nat): nat { if off + 4 <= |mem| then Decode(mem[off..off + 4]) else 0 }

  // The bytes up to the next zero.
  function TextAt(mem: Bytes, off: nat): Text
    decreases |mem| - off
  {
    if off >= |mem| || mem[off] == 0 then [] else [mem[off]] + TextAt(mem, off + 1)
  }

  // The strings that a vector of pointers leads to, up to the null pointer.
  function ReadStrings(mem: Bytes, low: nat, off: nat): seq<Text>
    decreases |mem| - off
  {
    if off + 4 > |mem| || WordAt(mem, off) < low || WordAt(mem, off) == 0 then []
    else [TextAt(mem, WordAt(mem, off) - low)] + ReadStrings(mem, low, off + 4)
  }

  // The entries of auxv, up to the one of type AT_NULL.
  function ReadAux(mem: Bytes, off: nat): seq<Aux>
    decreases |mem| - off
  {
    if off + 8 > |mem| || WordAt(mem, off) == AT_NULL then []
    else [Aux(WordAt(mem, off), WordAt(mem, off + 4))] + ReadAux(mem, off + 8)
  }

  // auxv as the program sees it: AT_PHDR has the address of the table on the stack.
  function Relocated(l: seq<Aux>, at: nat): seq<Aux>
  {
    if l == [] then [] else [if l[0].kind == AT_PHDR then Aux(AT_PHDR, at) else l[0]] + Relocated(l[1..], at)
  }

  lemma WordIs(mem: Bytes, off: nat, x: nat)
    requires x < WORD && off + 4 <= |mem| && mem[off..off + 4] == Encode(x)
    ensures WordAt(mem, off) == x
  {
    hide Encode, Decode;
    DecodeEncode(x);
  }

  lemma {:induction false} TextIs(mem: Bytes, off: nat, s: Text)
    requires off + |s| + 1 <= |mem| && IsText(s) && mem[off..off + |s| + 1] == s + [0]
    ensures TextAt(mem, off) == s
    decreases |s|
  {
    assert mem[off] == (s + [0])[0];
    if s != [] {
      assert mem[off + 1..off + |s| + 1] == mem[off..off + |s| + 1][1..];
      assert (s + [0])[1..] == s[1..] + [0];
      TextIs(mem, off + 1, s[1..]);
    }
  }

  // A pointer vector at off, with its null pointer, to strings at address `at`.
  ghost predicate HoldsStrings(mem: Bytes, low: nat, off: nat, l: seq<Text>, at: nat)
  {
    && low <= at && at + |Strings(l)| < WORD
    && off + 4 * |l| + 4 <= |mem| && mem[off..off + 4 * |l| + 4] == Pointers(l, at) + Encode(0)
    && at - low + |Strings(l)| <= |mem| && mem[at - low..at - low + |Strings(l)|] == Strings(l)
  }

  // A vector of pointers, with its strings in place, reads back as the strings.
  lemma {:induction false} ReadStringsIs(mem: Bytes, low: nat, off: nat, l: seq<Text>, at: nat)
    requires 0 < low && HoldsStrings(mem, low, off, l, at) && forall i :: 0 <= i < |l| ==> IsText(l[i])
    ensures ReadStrings(mem, low, off) == l
    decreases |l|
  {
    hide HoldsStrings, TextAt, WordAt, IsText;
    if l == [] {
      NullRead(mem, low, off, at);
    } else {
      FirstRead(mem, low, off, l, at);
      ReadStringsIs(mem, low, off + 4, l[1..], at + |l[0]| + 1);
    }
  }

  lemma NullRead(mem: Bytes, low: nat, off: nat, at: nat)
    requires HoldsStrings(mem, low, off, [], at)
    ensures WordAt(mem, off) == 0
  {
    assert Pointers([], at) + Encode(0) == Encode(0);
    WordIs(mem, off, 0);
  }

  lemma FirstRead(mem: Bytes, low: nat, off: nat, l: seq<Text>, at: nat)
    requires HoldsStrings(mem, low, off, l, at) && l != [] && IsText(l[0])
    ensures off + 4 <= |mem| && low <= at && WordAt(mem, off) == at && TextAt(mem, at - low) == l[0]
    ensures HoldsStrings(mem, low, off + 4, l[1..], at + |l[0]| + 1)
  {
    hide Encode, Decode, Strings, Pointers, TextAt, WordAt, IsText;
    FirstString(l, at);
    SlicePair(mem, off, Encode(at), Pointers(l[1..], at + |l[0]| + 1) + Encode(0));
    WordIs(mem, off, at);
    SlicePair(mem, at - low, l[0] + [0], Strings(l[1..]));
    TextIs(mem, at - low, l[0]);
  }

  lemma FirstString(l: seq<Text>, at: nat)
    requires l != [] && at + |Strings(l)| < WORD
    ensures Strings(l) == (l[0] + [0]) + Strings(l[1..])
    ensures var p := Pointers(l[1..], at + |l[0]| + 1) + Encode(0); Pointers(l, at) + Encode(0) == Encode(at) + p
  {
    hide Encode;
  }

  // Two parts that lie one after the other.
  lemma SlicePair(mem: Bytes, off: nat, x: Bytes, y: Bytes)
    requires off + |x| + |y| <= |mem| && mem[off..off + |x| + |y|] == x + y
    ensures mem[off..off + |x|] == x && mem[off + |x|..off + |x| + |y|] == y
  {
    var m := mem[off..off + |x| + |y|];
    assert m[..|x|] == x && m[|x|..] == y;
    assert mem[off..off + |x|] == m[..|x|];
    assert mem[off + |x|..off + |x| + |y|] == m[|x|..];
  }

  lemma {:induction false} ReadAuxIs(mem: Bytes, off: nat, l: seq<Aux>, at: nat)
    requires at < WORD && forall i :: 0 <= i < |l| ==> 0 != l[i].kind < WORD && l[i].value < WORD
    requires off + 8 * |l| + 4 <= |mem| && mem[off..off + 8 * |l| + 4] == Entries(l, at) + Encode(AT_NULL)
    ensures ReadAux(mem, off) == Relocated(l, at)
    decreases |l|
  {
    hide Encode, Decode;
    if l == [] {
      assert Entries(l, at) + Encode(AT_NULL) == Encode(AT_NULL);
      WordIs(mem, off, AT_NULL);
    } else {
      var k, x, r := l[0].kind, if l[0].kind == AT_PHDR then at else l[0].value, Entries(l[1..], at) + Encode(AT_NULL);
      assert Entries(l, at) + Encode(AT_NULL) == Encode(k) + (Encode(x) + r);
      SlicePair(mem, off, Encode(k), Encode(x) + r);
      SlicePair(mem, off + 4, Encode(x), r);
      WordIs(mem, off, k);
      WordIs(mem, off + 4, x);
      ReadAuxIs(mem, off + 8, l[1..], at);
    }
  }

  // Following the user addresses from the start of the image gives all the arguments back.
  lemma ReadBack(a: Args, low: nat, mem: Bytes)
    requires ArgsOk(a) && 0 < low && low + ArgSize(a) < WORD && IsImage(a, low, mem)
    ensures WordAt(mem, 0) == |a.argv|
    ensures WordAt(mem, 4) >= low && ReadStrings(mem, low, WordAt(mem, 4) - low) == a.argv
    ensures WordAt(mem, 8) >= low && ReadStrings(mem, low, WordAt(mem, 8) - low) == a.envp
    ensures WordAt(mem, 12) >= low && AuxBack(a, low, mem, ReadAux(mem, WordAt(mem, 12) - low))
  {
    hide ReadStrings, ReadAux, Strings, WordAt, IsImage, ArgsOk, Headers, Relocated;
    ArgvBack(a, low, mem);
    EnvpBack(a, low, mem);
    AuxvBack(a, low, mem);
    forall i | 0 <= i < |a.auxv|
      ensures i < |Relocated(a.auxv, PhtAt(a, low))|
      ensures AuxIs(a, low, mem, Relocated(a.auxv, PhtAt(a, low))[i], i)
    {
      RelocatedAt(a.auxv, PhtAt(a, low), i);
    }
    RelocatedSize(a.auxv, PhtAt(a, low));
  }

  // The entries of auxv are as given, but that the address in the entry of type 3 is now that
  // of a copy of the header table, which ends the image.
  ghost predicate AuxBack(a: Args, low: nat, mem: Bytes, aux: seq<Aux>)
  {
    |aux| == |a.auxv| && forall i :: 0 <= i < |aux| ==> AuxIs(a, low, mem, aux[i], i)
  }

  ghost predicate AuxIs(a: Args, low: nat, mem: Bytes, x: Aux, i: nat)
    requires i < |a.auxv|
  {
    && x.kind == a.auxv[i].kind
    && if x.kind == 3 then low <= x.value && x.value - low <= |mem| && mem[x.value - low..] == a.pht
       else x.value == a.auxv[i].value
  }

  lemma {:induction false} RelocatedSize(l: seq<Aux>, at: nat)
    ensures |Relocated(l, at)| == |l|
  {
    if l != [] { RelocatedSize(l[1..], at); }
  }

  lemma {:induction false} RelocatedAt(l: seq<Aux>, at: nat, i: nat)
    requires i < |l|
    ensures i < |Relocated(l, at)| && Relocated(l, at)[i].kind == l[i].kind
    ensures Relocated(l, at)[i].value == if l[i].kind == AT_PHDR then at else l[i].value
    ensures l[i].kind == AT_PHDR ==> Headers(l) > 0
  {
    if i > 0 {
      RelocatedAt(l[1..], at, i - 1);
      assert l[1..][i - 1] == l[i];
    }
  }

  lemma ArgvBack(a: Args, low: nat, mem: Bytes)
    requires ArgsOk(a) && 0 < low && low + ArgSize(a) < WORD && IsImage(a, low, mem)
    ensures WordAt(mem, 0) == |a.argv| && WordAt(mem, 4) == low + 16 && ReadStrings(mem, low, 16) == a.argv
  {
    hide Encode, Decode, ReadStrings, Pointers, Entries, Strings, WordAt, Headers, Vectors, Start, Tail;
    VectorsAt(a, low, mem);
    StartIs(a, low, mem);
    TailIs(a, low, mem);
    ReadStringsIs(mem, low, 16, a.argv, ArgvAt(a, low));
  }

  lemma EnvpBack(a: Args, low: nat, mem: Bytes)
    requires ArgsOk(a) && 0 < low && low + ArgSize(a) < WORD && IsImage(a, low, mem)
    ensures var n := 16 + 4 * (|a.argv| + 1); WordAt(mem, 8) == low + n && ReadStrings(mem, low, n) == a.envp
  {
    hide Encode, Decode, ReadStrings, Pointers, Entries, Strings, WordAt, Headers, Vectors, Start, Tail;
    VectorsAt(a, low, mem);
    StartIs(a, low, mem);
    TailIs(a, low, mem);
    ReadStringsIs(mem, low, 16 + 4 * (|a.argv| + 1), a.envp, EnvpAt(a, low));
  }

  lemma AuxvBack(a: Args, low: nat, mem: Bytes)
    requires ArgsOk(a) && 0 < low && low + ArgSize(a) < WORD && IsImage(a, low, mem)
    ensures var n := 16 + 4 * (|a.argv| + 1) + 4 * (|a.envp| + 1);
            WordAt(mem, 12) == low + n && ReadAux(mem, n) == Relocated(a.auxv, PhtAt(a, low))
    ensures Headers(a.auxv) > 0 ==> PhtAt(a, low) - low + |a.pht| == |mem| && mem[PhtAt(a, low) - low..] == a.pht
  {
    hide Encode, Decode, ReadAux, Pointers, Entries, Strings, WordAt, Headers, Vectors, Start, Tail, Relocated;
    VectorsAt(a, low, mem);
    StartIs(a, low, mem);
    TailIs(a, low, mem);
    ReadAuxIs(mem, 16 + 4 * (|a.argv| + 1) + 4 * (|a.envp| + 1), a.auxv, PhtAt(a, low));
  }

  lemma VectorsAt(a: Args, low: nat, mem: Bytes)
    requires ArgsOk(a) && low + ArgSize(a) < WORD && IsImage(a, low, mem)
    ensures var n, m, k := 4 * (|a.argv| + 1), 4 * (|a.envp| + 1), 8 * |a.auxv| + 4;
            && 16 + n + m + k <= |mem| && mem[0..16] == Start(a, low)
            && mem[16..16 + n] == Pointers(a.argv, ArgvAt(a, low)) + Encode(0)
            && mem[16 + n..16 + n + m] == Pointers(a.envp, EnvpAt(a, low)) + Encode(0)
            && mem[16 + n + m..16 + n + m + k] == Entries(a.auxv, PhtAt(a, low)) + Encode(AT_NULL)
  {
    hide Encode, Pointers, Entries, Strings, Headers, Start, Tail;
    var p := Pointers(a.argv, ArgvAt(a, low)) + Encode(0);
    var q := Pointers(a.envp, EnvpAt(a, low)) + Encode(0);
    var e := Entries(a.auxv, PhtAt(a, low)) + Encode(AT_NULL);
    FourParts(mem, Start(a, low), p, q, e);
  }

  lemma FourParts(mem: Bytes, w: Bytes, p: Bytes, q: Bytes, e: Bytes)
    requires |w| + |p| + |q| + |e| <= |mem| && mem[..|w| + |p| + |q| + |e|] == w + p + q + e
    ensures mem[0..|w|] == w && mem[|w|..|w| + |p|] == p && mem[|w| + |p|..|w| + |p| + |q|] == q
    ensures mem[|w| + |p| + |q|..|w| + |p| + |q| + |e|] == e
  {
    assert w + p + q + e == w + (p + (q + e));
    SlicePair(mem, 0, w, p + (q + e));
    SlicePair(mem, |w|, p, q + e);
    SlicePair(mem, |w| + |p|, q, e);
  }

  lemma StartIs(a: Args, low: nat, mem: Bytes)
    requires low + 16 + VectorSize(a) < WORD && |mem| >= 16 && mem[0..16] == Start(a, low)
    ensures WordAt(mem, 0) == |a.argv| && WordAt(mem, 4) == low + 16 && WordAt(mem, 8) == low + 16 + 4 * (|a.argv| + 1)
    ensures WordAt(mem, 12) == low + 16 + 4 * (|a.argv| + 1) + 4 * (|a.envp| + 1)
  {
    hide Encode, Decode, WordAt;
    var w, x := Encode(|a.argv|), Encode(low + 16);
    var y, z := Encode(low + 16 + 4 * (|a.argv| + 1)), Encode(low + 16 + 4 * (|a.argv| + 1) + 4 * (|a.envp| + 1));
    assert Start(a, low) == w + (x + (y + z));
    SlicePair(mem, 0, w, x + (y + z));
    SlicePair(mem, 4, x, y + z);
    SlicePair(mem, 8, y, z);
    WordIs(mem, 0, |a.argv|);
    WordIs(mem, 4, low + 16);
    WordIs(mem, 8, low + 16 + 4 * (|a.argv| + 1));
    WordIs(mem, 12, low + 16 + 4 * (|a.argv| + 1) + 4 * (|a.envp| + 1));
  }

  lemma TailIs(a: Args, low: nat, mem: Bytes)
    requires ArgsOk(a) && low + ArgSize(a) < WORD && IsImage(a, low, mem)
    ensures var o, s, t := 16 + VectorSize(a), |Strings(a.argv)|, |Strings(a.envp)|;
            && o + s + t <= |mem| && mem[o..o + s] == Strings(a.argv) && mem[o + s..o + s + t] == Strings(a.envp)
            && (Headers(a.auxv) > 0 ==> o + s + t + |a.pht| == |mem| && mem[o + s + t..] == a.pht)
  {
    hide Strings, Headers, Vectors;
    var o, x, y, z := 16 + VectorSize(a), Strings(a.argv), Strings(a.envp), if Headers(a.auxv) > 0 then a.pht else [];
    TimesNext(0, |a.pht|);
    ThreeParts(mem, o, x, y, z);
  }

  lemma ThreeParts(mem: Bytes, o: nat, x: Bytes, y: Bytes, z: Bytes)
    requires o + |x| + |y| + |z| == |mem| && mem[o..] == x + y + z
    ensures mem[o..o + |x|] == x && mem[o + |x|..o + |x| + |y|] == y && mem[o + |x| + |y|..] == z
  {
    assert x + y + z == x + (y + z);
    assert mem[o..] == mem[o..o + |x| + |y + z|];
    SlicePair(mem, o, x, y + z);
    SlicePair(mem, o + |x|, y, z);
    assert mem[o + |x| + |y|..] == mem[o + |x| + |y|..o + |x| + |y| + |z|];
  }
}
