/**
 64-bit division on a 32-bit machine (kernel/util/math.c).

 Dividend and divisor are cut into 16-bit digits and divided by Algorithm D of
 Knuth, The Art of Computer Programming vol. 2, section 4.3.1. Every quantity of the
 source is an `unsigned long` of 32 bits; where an operation can leave 32 bits the
 model wraps it with `Wrap`, and the proofs show which of those wraps matter.

 Digit arrays are big-endian, as in the source; the moving pointers `u`, `v` and `q`
 of the source are base indices into the arrays `uspace`, `vspace` and `qspace`.
 */
module QuadDivide {
  import opened Arith
  import opened Common

  const B: int := 0x1_0000          // digit base, 1 << HALF_BITS
  const WORD: int := 0x1_0000_0000  // one more than the largest unsigned long
  const QUAD: int := 0x1_0000_0000_0000_0000

  // A zero divisor reaches the division 1 / zero, which traps.
  datatype Outcome = Trap | Done(quot: nat, rem: Option<nat>)

  // ---------- machine operations ----------

  function Wrap(x: int): nat { x % WORD }
  function HHalf(x: nat): nat { x / B }
  function LHalf(x: nat): nat { x % B }

  function Shl(x: nat, k: nat): nat { Wrap(x * Pow2(k)) }

  function Shr(x: nat, k: nat): nat
  {
    DivNonNegative(x, Pow2(k));
    x / Pow2(k)
  }

  // Bitwise `|`, bit by bit.
  function BitOr(a: nat, b: nat): nat
    decreases a + b
  {
    if a == 0 && b == 0 then 0
    else 2 * BitOr(a / 2, b / 2) + (if a % 2 == 1 || b % 2 == 1 then 1 else 0)
  }

  function Combine(a: nat, b: nat): nat { BitOr(Wrap(a * B), b) }

  lemma Pow2Sixteen()
    ensures Pow2(16) == B
  {
    assert Pow2(4) == 16;
    Pow2Add(4, 4);
    Pow2Add(8, 8);
  }

  // The two halves of a 16-bit shift recombine to the digit base.
  lemma Pow2Halves(d: nat)
    requires d <= 16
    ensures Pow2(d) * Pow2(16 - d) == B
    ensures 1 <= Pow2(d) <= B
  {
    Pow2Sixteen();
    Pow2Add(d, 16 - d);
    MulGrows(Pow2(d), Pow2(16 - d));
  }

  // `|` adds when one operand has zeros wherever the other may have ones.
  lemma {:induction false} BitOrDisjoint(a: nat, b: nat, k: nat)
    requires a % Pow2(k) == 0
    requires b < Pow2(k)
    ensures BitOr(a, b) == a + b
    decreases k
  {
    if k == 0 {
      BitOrZero(a);
    } else {
      var p := Pow2(k - 1);
        var c := a / (2 * p);
      assert a == 2 * p * c;
      assert a / 2 == p * c by { assert a == 2 * (p * c); }
      ModOfMultiple(p, c);
      BitOrDisjoint(a / 2, b / 2, k - 1);
      assert a == 2 * (p * c);
    }
  }

  lemma {:induction false} BitOrZero(a: nat)
    ensures BitOr(a, 0) == a
  {
    if a > 0 { BitOrZero(a / 2); }
  }

  lemma CombineIs(a: nat, b: nat)
    requires a < B && b < B
    ensures Combine(a, b) == a * B + b
  {
    Pow2Sixteen();
    CombineAt(a, b, 16);
  }

  lemma CombineAt(a: nat, b: nat, k: nat)
    requires a < B && b < B && Pow2(k) == B
    ensures Combine(a, b) == a * B + b
  {
    ModOfMultiple(B, a);
    BitOrDisjoint(a * B, b, k);
  }

  // ---------- digit strings ----------

  ghost predicate Digits(s: seq<int>) { forall k :: 0 <= k < |s| ==> 0 <= s[k] < B }

  ghost function Pow(n: nat): int { if n == 0 then 1 else Pow(n - 1) * B }

  // The number a big-endian digit string denotes.
  ghost function Val(s: seq<int>): int
  {
    if s == [] then 0 else Val(s[..|s| - 1]) * B + s[|s| - 1]
  }

  lemma PowPositive(n: nat)
    ensures Pow(n) >= 1
  {
  }

  lemma {:induction false} PowAdd(j: nat, k: nat)
    ensures Pow(j + k) == Pow(j) * Pow(k)
  {
    if k > 0 {
      PowAdd(j, k - 1);
      calc {
        Pow(j + k);
        Pow(j + k - 1) * B;
        Pow(j) * Pow(k - 1) * B;
        Pow(j) * (Pow(k - 1) * B);
      }
    }
  }

  lemma {:induction false} ValBound(s: seq<int>)
    requires Digits(s)
    ensures 0 <= Val(s) < Pow(|s|)
  {
    if s != [] { ValBound(s[..|s| - 1]); }
  }

  lemma {:induction false} ValConcat(a: seq<int>, b: seq<int>)
    ensures Val(a + b) == Val(a) * Pow(|b|) + Val(b)
  {
    if b == [] {
      assert a + b == a;
    } else {
      var b' := b[..|b| - 1];
      assert (a + b)[..|a + b| - 1] == a + b';
      ValConcat(a, b');
      assert Val(a) * Pow(|b'|) * B == Val(a) * (Pow(|b'|) * B);
    }
  }

  lemma ValCons(x: int, s: seq<int>)
    ensures Val([x] + s) == x * Pow(|s|) + Val(s)
  {
    ValConcat([x], s);
    assert Val([x]) == x;
  }

  // A slice one digit longer on the left.
  lemma ValSliceLeft(a: seq<int>, i: nat, hi: nat)
    requires i < hi <= |a|
    ensures Val(a[i..hi]) == a[i] * Pow(hi - i - 1) + Val(a[i + 1..hi])
  {
    assert a[i..hi] == [a[i]] + a[i + 1..hi];
    ValCons(a[i], a[i + 1..hi]);
  }

  // A slice one digit longer on the right.
  lemma ValSliceRight(a: seq<int>, lo: nat, i: nat)
    requires lo <= i < |a|
    ensures Val(a[lo..i + 1]) == Val(a[lo..i]) * B + a[i]
  {
    assert a[lo..i + 1][..i - lo] == a[lo..i];
  }

  lemma ValSliceSplit(a: seq<int>, lo: nat, mid: nat, hi: nat)
    requires lo <= mid <= hi <= |a|
    ensures Val(a[lo..hi]) == Val(a[lo..mid]) * Pow(hi - mid) + Val(a[mid..hi])
  {
    assert a[lo..hi] == a[lo..mid] + a[mid..hi];
    ValConcat(a[lo..mid], a[mid..hi]);
  }

  lemma {:induction false} ValZeros(s: seq<int>)
    requires forall k :: 0 <= k < |s| ==> s[k] == 0
    ensures Val(s) == 0
  {
    if s != [] { ValZeros(s[..|s| - 1]); }
  }

  lemma ValFour(s: seq<int>)
    requires |s| == 4
    ensures Val(s) == ((s[0] * B + s[1]) * B + s[2]) * B + s[3]
  {
    assert s[..3][..2] == s[..2] && s[..2][..1] == s[..1] && s[..1][..0] == [];
    assert Val(s[..1]) == s[0];
    assert Val(s[..2]) == Val(s[..1]) * B + s[1];
    assert Val(s[..3]) == Val(s[..2]) * B + s[2];
  }

  // n is b scaled by f; n is a in units of w, and b.
  ghost predicate Scaled(n: int, b: int, f: int) { n == b * f }
  ghost predicate Split(n: int, a: int, w: int, b: int) { n == a * w + b }

  // ---------- step D3: the quotient estimate ----------

  // What D3 needs to know of the current window: its number `uw`, its three leading
  // digits and the divisor `vw` with its two leading digits; `p` is the weight of the
  // digits that D3 does not look at.
  ghost predicate Window(uw: int, vw: int, p: int, u0: int, u1: int, u2: int, v1: int, v2: int)
  {
    && p >= 1
    && 0 <= u0 < B && 0 <= u1 < B && 0 <= u2 < B && 1 <= v1 < B && 0 <= v2 < B
    && 0 <= uw - ((u0 * B + u1) * B + u2) * p < p
    && 0 <= vw - (v1 * B + v2) * p < p
    && uw < vw * B
  }

  lemma WindowFacts(uw: int, vw: int, p: int, u0: int, u1: int, u2: int, v1: int, v2: int)
    requires Window(uw, vw, p, u0, u1, u2, v1, v2)
    ensures B * p <= vw && 0 <= uw
    ensures u0 <= v1
    ensures 0 <= uw / vw < B
  {
    assert (v1 * B + v2) * p >= B * p by { MulMono(B, v1 * B + v2, p); }
    assert ((u0 * B + u1) * B + u2) * p >= 0 by { MulMono(0, (u0 * B + u1) * B + u2, p); }
    assert u0 * (B * B * p) <= uw by {
      MulMono(u0 * (B * B), (u0 * B + u1) * B + u2, p);
      assert u0 * (B * B) * p == u0 * (B * B * p);
    }
    assert vw * B < (v1 + 1) * (B * B * p) by {
      assert vw < (v1 * B + v2) * p + p;
      assert (v1 * B + v2) * p + p == (v1 * B + v2 + 1) * p;
      MulMono(v1 * B + v2 + 1, (v1 + 1) * B, p);
      assert (v1 + 1) * B * p * B == (v1 + 1) * (B * B * p);
    }
    MulStrict(u0, v1 + 1, B * B * p);
    DivBounds(uw, vw);
    if uw / vw >= B { MulMono(B, uw / vw, vw); }
    if uw / vw < 0 { MulMono(uw / vw, -1, vw); }
  }

  // The estimate is never below the true digit: dividing only the leading digits rounds up.
  lemma EstimateNotBelow(uw: int, vw: int, p: int, u0: int, u1: int, u2: int, v1: int, v2: int, qhat: int, rhat: int)
    requires Window(uw, vw, p, u0, u1, u2, v1, v2)
    requires qhat * v1 + rhat == u0 * B + u1 && 0 <= rhat < v1
    ensures uw / vw <= qhat
  {
    WindowFacts(uw, vw, p, u0, u1, u2, v1, v2);
    DivBounds(uw, vw);
    assert v1 * (B * p) <= vw by {
      assert (v1 * B + v2) * p == v1 * (B * p) + v2 * p;
      MulMono(0, v2, p);
    }
    assert uw < (u0 * B + u1 + 1) * (B * p) by {
      assert ((u0 * B + u1) * B + u2) * p == (u0 * B + u1) * (B * p) + u2 * p;
      assert (u0 * B + u1 + 1) * (B * p) == (u0 * B + u1) * (B * p) + B * p;
      MulMono(u2 + 1, B, p);
      assert (u2 + 1) * p == u2 * p + p;
    }
    QuotientBound(uw, vw, uw / vw, v1, B * p, u0 * B + u1, qhat, rhat);
  }

  // A quotient of numbers is bounded by the quotient of their leading parts.
  lemma QuotientBound(uw: int, vw: int, q: int, v1: int, w: int, lead: int, qhat: int, rhat: int)
    requires 0 <= q && q * vw <= uw && v1 * w <= vw && uw < (lead + 1) * w && 0 < w
    requires lead == qhat * v1 + rhat && 0 <= rhat < v1
    ensures q <= qhat
  {
    assert q * v1 * w <= uw by { MulMono(v1 * w, vw, q); assert v1 * w * q == q * v1 * w; assert vw * q == q * vw; }
    MulStrict(q * v1, lead + 1, w);
    assert (qhat + 1) * v1 == qhat * v1 + v1;
    MulStrict(q, qhat + 1, v1);
  }

  // When the two-digit test fails, the estimate is strictly too large.
  lemma EstimateTooBig(uw: int, vw: int, p: int, u0: int, u1: int, u2: int, v1: int, v2: int, qhat: int, rhat: int)
    requires Window(uw, vw, p, u0, u1, u2, v1, v2)
    requires qhat * v1 + rhat == u0 * B + u1
    requires v2 * qhat > rhat * B + u2
    ensures uw / vw < qhat
  {
    WindowFacts(uw, vw, p, u0, u1, u2, v1, v2);
    var q := uw / vw;
    DivBounds(uw, vw);
    var v12, u123 := v1 * B + v2, (u0 * B + u1) * B + u2;
    MulMono(v12 * p, vw, q);
    assert q * v12 * p <= uw by { assert v12 * p * q == q * v12 * p; assert vw * q == q * vw; }
    assert uw < (u123 + 1) * p by { assert (u123 + 1) * p == u123 * p + p; }
    MulStrict(q * v12, u123 + 1, p);
    assert qhat * v12 == qhat * v1 * B + v2 * qhat;
    assert u123 == qhat * v1 * B + rhat * B + u2;
    MulStrict(q, qhat, v12);
  }

  // When the loop stops, the estimate is at most one too large.
  lemma EstimateClose(uw: int, vw: int, p: int, u0: int, u1: int, u2: int, v1: int, v2: int, qhat: int, rhat: int)
    requires Window(uw, vw, p, u0, u1, u2, v1, v2)
    requires Estimate(uw, vw, u0, u1, v1, qhat, rhat)
    requires 0 <= qhat < B && (rhat >= B || v2 * qhat <= rhat * B + u2)
    ensures TrueDigitOrOneMore(uw, vw, qhat)
  {
    WindowFacts(uw, vw, p, u0, u1, u2, v1, v2);
    var v12, u123 := v1 * B + v2, (u0 * B + u1) * B + u2;
    assert v2 * qhat <= rhat * B + u2 by {
      if rhat >= B { MulMono(v2, B, qhat); assert v2 * qhat <= B * qhat < B * B <= rhat * B; }
    }
    assert qhat * v12 == qhat * v1 * B + v2 * qhat;
    assert u123 == qhat * v1 * B + rhat * B + u2;
    CloseAlgebra(uw, vw, p, v12, u123, qhat);
    DivBounds(uw, vw);
    MulStrict(qhat - 1, uw / vw + 1, vw);
  }

  lemma CloseAlgebra(uw: int, vw: int, p: int, v12: int, u123: int, qhat: int)
    requires 0 <= qhat < B && 1 <= p && qhat * v12 <= u123 && u123 * p <= uw
    requires 0 <= vw - v12 * p < p && B * p <= vw
    ensures (qhat - 1) * vw <= uw
  {
    var vr := vw - v12 * p;
    MulMono(qhat * v12, u123, p);
    assert qhat * vw == qhat * v12 * p
           + qhat * vr by { assert vw == v12 * p + vr; assert qhat * (v12 * p) == qhat * v12 * p; }
    assert qhat * vr <= B * p by { MulMono(vr, p, qhat); MulMono(qhat, B, p); assert vr * qhat == qhat * vr;
                                  assert p * qhat == qhat * p; }
    assert (qhat - 1) * vw == qhat * vw - vw;
  }

  // What D3 keeps: qhat and rhat divide the two leading digits, and qhat is not too small.
  ghost predicate Estimate(uw: int, vw: int, u0: int, u1: int, v1: int, qhat: int, rhat: int)
  {
    vw > 0 && qhat * v1 + rhat == u0 * B + u1 && uw / vw <= qhat
  }

  lemma WindowDigits(uw: int, vw: int, p: int, u0: int, u1: int, u2: int, v1: int, v2: int)
    requires Window(uw, vw, p, u0, u1, u2, v1, v2)
    ensures 0 <= u0 < B && 0 <= u1 < B && 0 <= u2 < B && 1 <= v1 < B && 0 <= v2 < B
  {
  }

  lemma EstimateStart(uw: int, vw: int, p: int, u0: int, u1: int, u2: int, v1: int, v2: int)
    requires Window(uw, vw, p, u0, u1, u2, v1, v2)
    ensures vw > 0 && u0 <= v1 && v1 > 0
    ensures u0 == v1 ==> Estimate(uw, vw, u0, u1, v1, B, u1)
    ensures u0 < v1 ==> var nn := u0 * B + u1;
            Estimate(uw, vw, u0, u1, v1, nn / v1, nn % v1) && 0 <= nn / v1 < B && 0 <= nn % v1 < v1
  {
    WindowFacts(uw, vw, p, u0, u1, u2, v1, v2);
    MulMono(1, B, p);
    if u0 < v1 {
      var nn := u0 * B + u1;
      var qhat, rhat := nn / v1, nn % v1;
      assert nn == qhat * v1 + rhat;
      EstimateNotBelow(uw, vw, p, u0, u1, u2, v1, v2, qhat, rhat);
      MulMono(u0 + 1, v1, B);
      MulStrict(qhat, B, v1);
    }
  }

  lemma EstimateStep(uw: int, vw: int, p: int, u0: int, u1: int, u2: int, v1: int, v2: int, qhat: int, rhat: int)
    requires Window(uw, vw, p, u0, u1, u2, v1, v2)
    requires Estimate(uw, vw, u0, u1, v1, qhat, rhat)
    requires qhat == B || v2 * qhat > rhat * B + u2
    ensures Estimate(uw, vw, u0, u1, v1, qhat - 1, rhat + v1)
    ensures qhat >= 1
  {
    WindowFacts(uw, vw, p, u0, u1, u2, v1, v2);
    if qhat != B { EstimateTooBig(uw, vw, p, u0, u1, u2, v1, v2, qhat, rhat); }
    assert (qhat - 1) * v1 == qhat * v1 - v1;
  }

  // The source's test, on 32-bit values, is the test on the real ones.
  lemma TestIsExact(v2: nat, qhat: nat, rhat: nat, u2: nat)
    requires v2 < B && qhat < B && rhat < B && u2 < B
    ensures Wrap(v2 * qhat) == v2 * qhat && Combine(rhat, u2) == rhat * B + u2
  {
    ProductFits(v2, qhat);
    CombineIs(rhat, u2);
  }

  ghost predicate TrueDigitOrOneMore(uw: int, vw: int, qhat: int)
  {
    vw > 0 && uw / vw <= qhat <= uw / vw + 1
  }

  // D3. The result is the true digit or one more. No product leaves 32 bits, and with a
  // normalised divisor the loop body runs at most twice.
  method EstimateDigit(uj0: nat, uj1: nat, uj2: nat, v1: nat, v2: nat, ghost uw: int, ghost vw: int, ghost p: int)
    returns (qhat: nat)
    requires Window(uw, vw, p, uj0, uj1, uj2, v1, v2)
    requires B / 2 <= v1
    ensures TrueDigitOrOneMore(uw, vw, qhat) && qhat < B
  {
    hide Estimate, Window, TrueDigitOrOneMore, BitOr, Combine;
    WindowDigits(uw, vw, p, uj0, uj1, uj2, v1, v2);
    EstimateStart(uw, vw, p, uj0, uj1, uj2, v1, v2);
    var rhat: nat;
    var tooBig := uj0 == v1;
    if tooBig {
      qhat, rhat := B, uj1;
    } else {
      CombineIs(uj0, uj1);
      var nn := Combine(uj0, uj1);
      qhat, rhat := nn / v1, nn % v1;
    }
    ghost var rounds := 0;
    while tooBig || Wrap(v2 * qhat) > Combine(rhat, uj2)
      invariant rounds <= 1 && rhat >= rounds * (B / 2)
      invariant rhat < B
      invariant if tooBig then qhat == B else qhat < B
      invariant Estimate(uw, vw, uj0, uj1, v1, qhat, rhat)
      decreases qhat
    {
      if !tooBig { TestIsExact(v2, qhat, rhat, uj2); }
      EstimateStep(uw, vw, p, uj0, uj1, uj2, v1, v2, qhat, rhat);
      tooBig := false;
      qhat := qhat - 1;
      rhat := rhat + v1;
      rounds := rounds + 1;
      assert rounds <= 2;
      if rhat >= B {
        break;
      }
    }
    if rhat < B { TestIsExact(v2, qhat, rhat, uj2); }
    EstimateClose(uw, vw, p, uj0, uj1, uj2, v1, v2, qhat, rhat);
  }

  // A product of two digits is an unsigned long.
  lemma ProductFits(x: nat, y: nat)
    requires x < B && y < B
    ensures x * y <= (B - 1) * (B - 1) < WORD && Wrap(x * y) == x * y
  {
    MulMono(x, B - 1, y);
    MulMono(y, B - 1, B - 1);
  }

  // ---------- step D1: shifting digit strings ----------

  // The part of a digit, scaled by f, that stays in its place and the part that moves up.
  ghost function Stay(x: int, f: int): int { x * f % B }
  ghost function Up(x: int, f: int): int { x * f / B }

  // One digit of `shl`: the part that stays and the part that moves up.
  lemma ShiftDigit(x: nat, y: nat, sh: nat)
    requires x < B && y < B && sh < 16
    ensures LHalf(Shl(x, sh)) == Stay(x, Pow2(sh)) < B
    ensures Shr(y, 16 - sh) == Up(y, Pow2(sh)) < Pow2(sh)
    ensures BitOr(LHalf(Shl(x, sh)), Shr(y, 16 - sh)) == Stay(x, Pow2(sh)) + Up(y, Pow2(sh)) < B
  {
    hide BitOr, Pow2;
    var p, p' := Pow2(sh), Pow2(16 - sh);
    Pow2Halves(sh);
    ShiftFits(x, p);
    ShiftedHigh(y, p, p');
    ShiftedLow(x, p, p');
    BitOrDisjoint((x * p) % B, y / p', sh);
  }

  lemma ShiftFits(x: nat, p: nat)
    requires x < B && p <= B
    ensures x * p < WORD && Wrap(x * p) == x * p
  {
    MulMono(x, B - 1, p);
    MulMono(p, B, B - 1);
  }

  lemma ShiftedHigh(y: nat, p: nat, p': nat)
    requires p > 0 && p' > 0 && p * p' == B && y < B
    ensures y / p' == (y * p) / B < p
  {
    var q, r := y / p', y % p';
    assert y * p == q * B + r * p by { assert y == q * p' + r; assert (q * p' + r) * p == q * (p * p') + r * p; }
    MulMono(r + 1, p', p);
    assert (r + 1) * p == r * p + p;
    MulMono(0, r, p);
    DivModUnique(y * p, B, q, r * p);
    assert q * p' <= y < p * p';
    MulStrict(q, p, p');
  }

  // The low half of a shifted digit leaves room for the bits moving in, and does not overflow.
  lemma ShiftedLow(x: nat, p: nat, p': nat)
    requires p > 0 && p' > 0 && p * p' == B
    ensures ((x * p) % B) % p == 0
    ensures (x * p) % B + p <= B
  {
    var c, e := x / p', x % p';
    assert x * p == c * B + e * p by { assert x == c * p' + e; assert (c * p' + e) * p == c * (p * p') + e * p; }
    MulMono(e + 1, p', p);
    assert (e + 1) * p == e * p + p;
    MulMono(0, e, p);
    DivModUnique(x * p, B, c, e * p);
    ModOfMultiple(p, e);
    assert e * p == p * e;
  }

  // After the leading digits are shifted: `next` has moved in, `drop` has fallen out.
  ghost predicate Shifted(ns: int, xs: int, f: int, next: int, drop: int, w: int)
  {
    ns == xs * f + next - drop * w
  }

  lemma ShiftAlgebra(ns: int, xs: int, f: int, drop: int, w: int, x: int, next': int)
    requires Shifted(ns, xs, f, Up(x, f), drop, w)
    ensures Shifted(ns * B + (Stay(x, f) + next'), xs * B + x, f, next', drop, w * B)
  {
    assert (xs * B + x) * f == xs * f * B + x * f;
    assert drop * w * B == drop * (w * B);
  }

  // One turn of shl on the digit strings; digit i becomes its low part plus what moves in.
  lemma ShiftColumn(us: seq<int>, was: seq<int>, lo: nat, i: nat, f: int, next': int, drop: int)
    requires |us| == |was| && lo <= i < |was| && us[i..] == was[i..]
    requires Shifted(Val(us[lo..i]), Val(was[lo..i]), f, Up(was[i], f), drop, Pow(i - lo))
    ensures var us' := us[i := Stay(was[i], f) + next'];
            && Shifted(Val(us'[lo..i + 1]), Val(was[lo..i + 1]), f, next', drop, Pow(i - lo + 1))
            && us'[i + 1..] == was[i + 1..]
  {
    var us' := us[i := Stay(was[i], f) + next'];
    assert us'[lo..i] == us[lo..i];
    assert us'[i + 1..] == us[i..][1..] == was[i..][1..] == was[i + 1..];
    ValSliceRight(us', lo, i);
    ValSliceRight(was, lo, i);
    ShiftAlgebra(Val(us[lo..i]), Val(was[lo..i]), f, drop, Pow(i - lo), was[i], next');
  }

  // shl: multiplies the digits p[lo..lo+len] by 2^sh; what falls out at the left is the
  // high part of the leading digit.
  method ShiftLeft(p: array<int>, lo: nat, len: nat, sh: nat)
    requires lo + len + 1 == p.Length && 0 < sh < 16
    requires Digits(p[..])
    modifies p
    ensures Digits(p[..]) && p[..lo] == old(p[..lo])
    ensures Shifted(Val(p[..][lo..]), old(Val(p[..][lo..])), Pow2(sh), 0, Up(old(p[lo]), Pow2(sh)), Pow(len + 1))
  {
    hide Shifted, Val, Pow, BitOr, Pow2, Stay, Up, Shl, Shr, LHalf;
    ghost var was, f := p[..], Pow2(sh);
    ghost var drop := Up(was[lo], f);
    var i := 0;
    ShiftNothing(was, lo, f);
    while i < len
      invariant 0 <= i <= len
      invariant Digits(p[..]) && p[..lo] == was[..lo] && p[lo + i..] == was[lo + i..]
      invariant Shifted(Val(p[..][lo..lo + i]), Val(was[lo..lo + i]), f, Up(was[lo + i], f), drop, Pow(i))
    {
      assert p[lo + i] == p[lo + i..][0] == was[lo + i] && p[lo + i + 1] == p[lo + i..][1] == was[lo + i + 1];
      ghost var us := p[..];
      ShiftDigit(was[lo + i], was[lo + i + 1], sh);
      ShiftColumn(us, was, lo, lo + i, f, Up(was[lo + i + 1], f), drop);
      p[lo + i] := BitOr(LHalf(Shl(p[lo + i], sh)), Shr(p[lo + i + 1], 16 - sh));
      assert p[..] == us[lo + i := p[lo + i]];
      i := i + 1;
    }
    ghost var us := p[..];
    assert p[lo + i] == p[lo + i..][0] == was[lo + i];
    ShiftDigit(was[lo + i], 0, sh);
    ShiftColumn(us, was, lo, lo + i, f, 0, drop);
    p[lo + i] := LHalf(Shl(p[lo + i], sh));
    assert p[..] == us[lo + i := p[lo + i]];
    ToTheEnd(p[..], lo);
    ToTheEnd(was, lo);
  }

  lemma ToTheEnd(s: seq<int>, lo: nat)
    requires lo <= |s|
    ensures s[lo..] == s[lo..|s|]
  {
  }

  lemma ShiftNothing(was: seq<int>, lo: nat, f: int)
    requires lo < |was|
    ensures Shifted(Val(was[lo..lo]), Val(was[lo..lo]), f, Up(was[lo], f), Up(was[lo], f), Pow(0))
  {
  }

  // ---------- steps D4 to D6 ----------

  // Digit d and what is taken from the next digit, t', for the column x - y * q - t.
  ghost predicate Column(d: int, t': int, x: int, y: int, q: int, t: int)
  {
    d - t' * B == x - y * q - t
  }

  // One digit of D4: the wrapped difference splits into a digit and a borrow.
  lemma SubtractDigit(x: nat, y: nat, qhat: nat, t: nat)
    requires x < B && y < B && qhat < B && t < B
    ensures var w := Wrap(x - Wrap(y * qhat) - t);
            && Column(LHalf(w), (B - HHalf(w)) % B, x, y, qhat, t)
            && LHalf(w) < B && 0 <= (B - HHalf(w)) % B < B
  {
    ProductFits(y, qhat);
    WrappedBorrow(x - y * qhat - t);
  }

  lemma WrappedBorrow(x: int)
    requires -((B - 1) * B) <= x < B
    ensures var w := Wrap(x);
            LHalf(w) - (B - HHalf(w)) % B * B == x
  {
    var w := Wrap(x);
    if x < 0 {
      assert w == x + WORD;
      assert w == HHalf(w) * B + LHalf(w);
    }
  }

  // The topmost digit of D4: HHALF is nonzero exactly when there is a borrow.
  lemma SubtractTop(x: nat, t: nat, q: int)
    requires x < B && t < B
    ensures var w := Wrap(x - t);
            Column(LHalf(w), if HHalf(w) != 0 then 1 else 0, x, 0, q, t) && LHalf(w) < B
  {
  }

  // One digit of D6.
  lemma AddDigit(x: nat, y: nat, t: nat)
    requires x < B && y < B && t <= 1
    ensures var w := t + x + y;
            Column(LHalf(w), -(HHalf(w) as int), x, y, -1, -(t as int)) && LHalf(w) < B && HHalf(w) <= 1
  {
  }

  // The number formed by the digits of rank below k in the window that ends at `end`.
  ghost function Low(s: seq<int>, end: nat, k: nat): int
    requires k <= end <= |s|
  {
    Val(s[end - k..end])
  }

  lemma LowIsSuffix(s: seq<int>, k: nat)
    requires k <= |s|
    ensures Low(s, |s|, k) == Val(s[|s| - k..])
  {
    assert s[|s| - k..|s|] == s[|s| - k..];
  }

  lemma LowStep(s: seq<int>, end: nat, k: nat)
    requires k < end <= |s|
    ensures Low(s, end, k + 1) == s[end - k - 1] * Pow(k) + Low(s, end, k)
  {
    ValSliceLeft(s, end - k - 1, end);
  }

  // The lowest k digits of the difference d - q * v are in place, with t still to be
  // taken from the next one.
  ghost predicate Balanced(ds: int, xs: int, ys: int, q: int, t: int, w: int)
  {
    ds == xs - q * ys + t * w
  }

  // The column of the next digit joined to what lies below it.
  lemma JoinColumn(x: int, xs: int, y: int, ys: int, d: int, ds: int, q: int, t: int, t': int, w: int)
    requires Column(d, t', x, y, q, t)
    requires Balanced(ds, xs, ys, q, t, w)
    ensures Balanced(d * w + ds, x * w + xs, y * w + ys, q, t', w * B)
  {
    assert d * w == (x - y * q - t + t' * B) * w == x * w - y * q * w - t * w + t' * (w * B);
    assert q * (y * w + ys) == y * q * w + q * ys;
  }

  // After k digits of D4 (q = qhat) or of D6 (q = -1): `us` is `was` except in those digits.
  ghost predicate PartlyDone(us: seq<int>, was: seq<int>, vs: seq<int>, ue: nat, ve: nat, k: nat, q: int, t: int)
  {
    && k < ue <= |was| && k < ve <= |vs| && |us| == |was|
    && us[..ue - k] == was[..ue - k] && us[ue..] == was[ue..]
    && Balanced(Low(us, ue, k), Low(was, ue, k), Low(vs, ve, k), q, t, Pow(k))
  }

  lemma NothingDone(us: seq<int>, vs: seq<int>, ue: nat, ve: nat, q: int)
    requires 0 < ue <= |us| && 0 < ve <= |vs|
    ensures PartlyDone(us, us, vs, ue, ve, 0, q, 0)
  {
  }

  lemma ColumnStep(us: seq<int>, was: seq<int>, vs: seq<int>, ue: nat, ve: nat, k: nat, q: int, t: int, d: int, t': int)
    requires PartlyDone(us, was, vs, ue, ve, k, q, t) && k + 1 < ue && k + 1 < ve
    requires Column(d, t', us[ue - k - 1], vs[ve - k - 1], q, t)
    ensures PartlyDone(us[ue - k - 1 := d], was, vs, ue, ve, k + 1, q, t')
  {
    var i := ue - k - 1;
    var us' := us[i := d];
    assert us[i] == us[..ue - k][i] == was[i];
    assert us'[..i] == us[..ue - k][..i] == was[..ue - k][..i] == was[..i];
    assert us'[ue..] == us[ue..];
    assert us'[ue - k..ue] == us[ue - k..ue];
    LowStep(us', ue, k);
    LowStep(was, ue, k);
    LowStep(vs, ve, k);
    JoinColumn(was[i], Low(was, ue, k), vs[ve - k - 1], Low(vs, ve, k), d, Low(us, ue, k), q, t, t', Pow(k));
  }

  // The topmost digit of the window, where the divisor has no digit left.
  lemma TopColumn(us: seq<int>, was: seq<int>, vs: seq<int>, ue: nat, ve: nat, k: nat, q: int, t: int, d: int, t': int)
    requires PartlyDone(us, was, vs, ue, ve, k, q, t)
    requires Column(d, t', us[ue - k - 1], 0, q, t)
    ensures Balanced(Low(us[ue - k - 1 := d], ue, k + 1), Low(was, ue, k + 1), Low(vs, ve, k), q, t', Pow(k + 1))
    ensures us[ue - k - 1 := d][..ue - k - 1] == was[..ue - k - 1] && us[ue - k - 1 := d][ue..] == was[ue..]
  {
    var i := ue - k - 1;
    var us' := us[i := d];
    assert us[i] == us[..ue - k][i] == was[i];
    assert us'[..i] == us[..ue - k][..i] == was[..ue - k][..i] == was[..i];
    assert us'[ue - k..ue] == us[ue - k..ue];
    LowStep(us', ue, k);
    LowStep(was, ue, k);
    JoinColumn(was[i], Low(was, ue, k), 0, Low(vs, ve, k), d, Low(us, ue, k), q, t, t', Pow(k));
  }

  lemma DigitsSet(s: seq<int>, k: nat, d: int)
    requires Digits(s) && k < |s| && 0 <= d < B
    ensures Digits(s[k := d])
  {
  }

  // D4: subtracts qhat times the divisor from the window u[ub..ub+n]; the result is
  // the difference modulo B^(n+1), and `borrow` says whether it went below zero.
  method MultiplySubtract(u: array<int>, ub: nat, v: array<int>, vb: nat, n: nat, qhat: nat) returns (borrow: bool)
    requires u != v && ub + n < u.Length && vb + n < v.Length
    requires Digits(u[..]) && Digits(v[..]) && qhat < B
    modifies u
    ensures Digits(u[..])
    ensures u[..ub] == old(u[..ub]) && u[ub + n + 1..] == old(u[ub + n + 1..])
    ensures Balanced(Low(u[..], ub + n + 1, n + 1), Low(old(u[..]), ub + n + 1, n + 1), Low(v[..], vb + n + 1, n),
                     qhat, if borrow then 1 else 0, Pow(n + 1))
  {
    hide Balanced, Pow, Val, Column, Wrap, LHalf, HHalf, PartlyDone, Low;
    ghost var was, vs := u[..], v[..];
    var t, i := 0, n;
    NothingDone(was, vs, ub + n + 1, vb + n + 1, qhat);
    while i > 0
      invariant 0 <= i <= n && v[..] == vs
      invariant Digits(u[..]) && 0 <= t < B
      invariant PartlyDone(u[..], was, vs, ub + n + 1, vb + n + 1, n - i, qhat, t)
    {
      ghost var us, t0 := u[..], t;
      SubtractDigit(u[ub + i], v[vb + i], qhat, t);
      t := Wrap(u[ub + i] - Wrap(v[vb + i] * qhat) - t);
      u[ub + i] := LHalf(t);
      assert u[..] == us[ub + i := LHalf(t)];
      DigitsSet(us, ub + i, LHalf(t));
      ColumnStep(us, was, vs, ub + n + 1, vb + n + 1, n - i, qhat, t0, LHalf(t), (B - HHalf(t)) % B);
      t := (B - HHalf(t)) % B;
      i := i - 1;
    }
    ghost var us, t0 := u[..], t;
    SubtractTop(u[ub], t, qhat);
    t := Wrap(u[ub] - t);
    u[ub] := LHalf(t);
    borrow := HHalf(t) != 0;
    assert u[..] == us[ub := LHalf(t)];
    DigitsSet(us, ub, LHalf(t));
    TopColumn(us, was, vs, ub + n + 1, vb + n + 1, n, qhat, t0, LHalf(t), if borrow then 1 else 0);
  }

  // D6: adds the divisor back to the window, modulo B^(n+1).
  method AddBack(u: array<int>, ub: nat, v: array<int>, vb: nat, n: nat) returns (ghost carry: int)
    requires u != v && ub + n < u.Length && vb + n < v.Length
    requires Digits(u[..]) && Digits(v[..])
    modifies u
    ensures Digits(u[..])
    ensures u[..ub] == old(u[..ub]) && u[ub + n + 1..] == old(u[ub + n + 1..])
    ensures Balanced(Low(u[..], ub + n + 1, n + 1), Low(old(u[..]), ub + n + 1, n + 1), Low(v[..], vb + n + 1, n),
                     -1, -carry, Pow(n + 1))
  {
    hide Balanced, Pow, Val, Column, Wrap, LHalf, HHalf, PartlyDone, Low;
    ghost var was, vs := u[..], v[..];
    var t, i := 0, n;
    NothingDone(was, vs, ub + n + 1, vb + n + 1, -1);
    while i > 0
      invariant 0 <= i <= n && v[..] == vs
      invariant Digits(u[..]) && 0 <= t <= 1
      invariant PartlyDone(u[..], was, vs, ub + n + 1, vb + n + 1, n - i, -1, -t)
    {
      ghost var us, t0 := u[..], t;
      AddDigit(u[ub + i], v[vb + i], t);
      t := t + u[ub + i] + v[vb + i];
      u[ub + i] := LHalf(t);
      assert u[..] == us[ub + i := LHalf(t)];
      DigitsSet(us, ub + i, LHalf(t));
      ColumnStep(us, was, vs, ub + n + 1, vb + n + 1, n - i, -1, -t0, LHalf(t), -(HHalf(t) as int));
      t := HHalf(t);
      i := i - 1;
    }
    ghost var us, t0 := u[..], t;
    AddDigit(u[ub], 0, t);
    carry := HHalf(u[ub] + t);
    u[ub] := LHalf(u[ub] + t);
    assert u[..] == us[ub := LHalf(us[ub] + t)];
    DigitsSet(us, ub, LHalf(us[ub] + t));
    TopColumn(us, was, vs, ub + n + 1, vb + n + 1, n, -1, -t0, u[ub], -carry);
  }

  // The window that D3 sees, from the digit arrays.
  lemma WindowOf(us: seq<int>, ub: nat, vs: seq<int>, vb: nat, n: nat)
    requires n >= 2 && ub + n < |us| && vb + n < |vs| && Digits(us) && Digits(vs)
    requires vs[vb + 1] >= 1
    requires Val(us[ub..ub + n]) < Val(vs[vb + 1..vb + n + 1])
    ensures Window(Val(us[ub..ub + n + 1]), Val(vs[vb + 1..vb + n + 1]), Pow(n - 2),
                   us[ub], us[ub + 1], us[ub + 2], vs[vb + 1], vs[vb + 2])
  {
    hide Val, Pow;
    PowPositive(n - 2);
    ValSliceSplit(us, ub, ub + 3, ub + n + 1);
    ValBound(us[ub + 3..ub + n + 1]);
    LeadingThree(us, ub);
    ValSliceSplit(vs, vb + 1, vb + 3, vb + n + 1);
    ValBound(vs[vb + 3..vb + n + 1]);
    LeadingTwo(vs, vb + 1);
    ValSliceRight(us, ub, ub + n);
    assert ub + n + 1 - (ub + 3) == n - 2 && vb + n + 1 - (vb + 3) == n - 2;
  }

  lemma LeadingTwo(s: seq<int>, lo: nat)
    requires lo + 2 <= |s|
    ensures Val(s[lo..lo + 2]) == s[lo] * B + s[lo + 1]
  {
    assert s[lo..lo] == [];
    ValSliceRight(s, lo, lo);
    ValSliceRight(s, lo, lo + 1);
  }

  lemma LeadingThree(s: seq<int>, lo: nat)
    requires lo + 3 <= |s|
    ensures Val(s[lo..lo + 3]) == (s[lo] * B + s[lo + 1]) * B + s[lo + 2]
  {
    LeadingTwo(s, lo);
    ValSliceRight(s, lo, lo + 2);
  }

  // Steps D3 to D6 for one digit: the digit is the true quotient of the window, and the
  // window is left holding the remainder, with a zero in its leading digit.
  method DivideDigit(u: array<int>, ub: nat, v: array<int>, vb: nat, n: nat) returns (qhat: nat)
    requires u != v && n >= 2 && ub + n < u.Length && vb + n < v.Length
    requires Digits(u[..]) && Digits(v[..]) && v[vb + 1] >= B / 2
    requires Val(u[ub..ub + n]) < Val(v[vb + 1..vb + n + 1])
    modifies u
    ensures Digits(u[..]) && 0 <= qhat < B
    ensures u[..ub] == old(u[..ub]) && u[ub + n + 1..] == old(u[ub + n + 1..])
    ensures Split(old(Val(u[ub..ub + n + 1])), qhat, Val(v[vb + 1..vb + n + 1]), Val(u[ub + 1..ub + n + 1]))
    ensures u[ub] == 0 && Val(u[ub + 1..ub + n + 1]) < Val(v[vb + 1..vb + n + 1])
  {
    hide Balanced, Pow, Val, Window, TrueDigitOrOneMore, Split;
    ghost var uw, vw := Low(u[..], ub + n + 1, n + 1), Low(v[..], vb + n + 1, n);
    assert uw == Val(u[ub..ub + n + 1]) && vw == Val(v[vb + 1..vb + n + 1]) && u[ub..ub + n] == u[..][ub..ub + n] by {
      assert u[ub..ub + n + 1] == u[..][ub..ub + n + 1];
      assert v[vb + 1..vb + n + 1] == v[..][vb + 1..vb + n + 1];
    }
    WindowOf(u[..], ub, v[..], vb, n);
    qhat := EstimateDigit(u[ub], u[ub + 1], u[ub + 2], v[vb + 1], v[vb + 2], uw, vw, Pow(n - 2));
    ValBound(u[..][ub..ub + n + 1]);
    ValBound(v[..][vb + 1..vb + n + 1]);
    PowGrows(n);
    var borrow := MultiplySubtract(u, ub, v, vb, n, qhat);
    ghost var est, mid, carry := qhat, Low(u[..], ub + n + 1, n + 1), 0;
    ValBound(u[..][ub..ub + n + 1]);
    if borrow {
      EstimateAboveZero(uw, vw, Pow(n + 1), est, mid);
      qhat := qhat - 1;
      carry := AddBack(u, ub, v, vb, n);
      ValBound(u[..][ub..ub + n + 1]);
    }
    DigitSettled(uw, vw, Pow(n + 1), est, borrow, mid, Low(u[..], ub + n + 1, n + 1), carry);
    LeadingZero(u[..], ub, n);
    assert u[ub + 1..ub + n + 1] == u[..][ub + 1..ub + n + 1];
  }

  lemma PowGrows(n: nat)
    ensures 0 < Pow(n) <= Pow(n + 1)
  {
    PowPositive(n);
  }

  // A borrow needs a positive estimate.
  lemma EstimateAboveZero(uw: int, vw: int, w: int, est: int, mid: int)
    requires 0 <= uw && 0 <= est && Balanced(mid, uw, vw, est, 1, w) && mid < w
    ensures est > 0
  {
  }

  // D5 decides correctly: a borrow means the estimate was one too large, and adding the
  // divisor back then gives the remainder.
  lemma DigitSettled(uw: int, vw: int, w: int, est: int, borrow: bool, mid: int, end: int, carry: int)
    requires 0 <= uw && 0 <= vw <= w && TrueDigitOrOneMore(uw, vw, est)
    requires Balanced(mid, uw, vw, est, if borrow then 1 else 0, w) && 0 <= mid < w
    requires if borrow then Balanced(end, mid, vw, -1, -carry, w) && 0 <= end < w else end == mid
    ensures Split(uw, if borrow then est - 1 else est, vw, end) && 0 <= end < vw
  {
    DivBounds(uw, vw);
    var q := uw / vw;
    assert (q + 1) * vw == q * vw + vw;
    var r := uw - q * vw;
    assert (est - 1) * vw == est * vw - vw;
    if borrow {
      assert est == q + 1 by { if est == q { assert false; } }
      assert (1 - carry) * w == w - carry * w;
      assert carry == 1 by {
        if carry <= 0 { MulMono(1, 1 - carry, w); }
        if carry >= 2 { MulMono(1 - carry, -1, w); }
      }
    } else {
      assert est == q by { if est == q + 1 { assert false; } }
    }
  }

  lemma LeadingZero(us: seq<int>, ub: nat, n: nat)
    requires ub + n < |us| && Digits(us)
    requires Val(us[ub..ub + n + 1]) < Pow(n)
    ensures us[ub] == 0 && Val(us[ub..ub + n + 1]) == Val(us[ub + 1..ub + n + 1])
  {
    ValSliceLeft(us, ub, ub + n + 1);
    ValBound(us[ub + 1..ub + n + 1]);
    MulStrict(us[ub], 1, Pow(n));
  }

  // ---------- step D7: all digits ----------

  // After j quotient digits: the digits found so far and what is left of the dividend.
  ghost predicate Progress(whole: int, qs: int, vw: int, w: int, rest: int)
  {
    whole == qs * vw * w + rest
  }

  lemma ProgressStep(whole: int, qs: int, vw: int, p: int, win: int, tail: int, d: int, r: int)
    requires Progress(whole, qs, vw, p * B, win * p + tail) && Split(win, d, vw, r)
    ensures Progress(whole, qs * B + d, vw, p, r * p + tail)
  {
    assert win * p == d * vw * p + r * p by { assert (d * vw + r) * p == d * vw * p + r * p; }
    assert (qs * B + d) * vw * p == qs * vw * (p * B) + d * vw * p by {
      assert (qs * B + d) * vw == qs * vw * B + d * vw;
      assert (qs * vw * B + d * vw) * p == qs * vw * B * p + d * vw * p;
      assert qs * vw * B * p == qs * vw * (p * B);
    }
  }

  // One turn of the loop on j, seen on the digit strings.
  lemma TurnStep(us: seq<int>, us': seq<int>, qs: seq<int>, whole: int, vw: int, lo: nat, qo: nat, n: nat, j: nat,
                 d: int)
    requires |us| == |us'| && lo + n + 1 <= |us| && qo + j < |qs| && qs[qo + j] == d
    requires Progress(whole, Val(qs[qo..qo + j]), vw, Pow(|us| - lo - n), Val(us[lo..]))
    requires us'[lo + n + 1..] == us[lo + n + 1..]
    requires Split(Val(us[lo..lo + n + 1]), d, vw, Val(us'[lo + 1..lo + n + 1]))
    ensures Progress(whole, Val(qs[qo..qo + j + 1]), vw, Pow(|us| - lo - n - 1), Val(us'[lo + 1..]))
  {
    hide Progress, Split, Val;
    var mid, p := lo + n + 1, Pow(|us| - lo - n - 1);
    ValSliceSplit(us, lo, mid, |us|);
    ValSliceSplit(us', lo + 1, mid, |us|);
    assert us[lo..|us|] == us[lo..] && us'[lo + 1..|us|] == us'[lo + 1..] && us'[mid..|us|] == us[mid..|us|];
    ValSliceRight(qs, qo, qo + j);
    ProgressStep(whole, Val(qs[qo..qo + j]), vw, p, Val(us[lo..mid]), Val(us[mid..|us|]), d, Val(us'[lo + 1..mid]));
  }

  // The state of the loop on j, with `was` and `q0` the digits at its start.
  ghost predicate SoFar(us: seq<int>, qs: seq<int>, was: seq<int>, q0: seq<int>, uo: nat, qo: nat, n: nat, m: nat,
                        j: nat, vw: int)
  {
    && |us| == |was| == uo + m + n + 1 && |qs| == |q0| == qo + m + 1 && j <= m + 1
    && Digits(us) && Digits(qs[qo..qo + j])
    && us[..uo] == was[..uo] && qs[..qo] == q0[..qo]
    && (forall k :: uo <= k < uo + j ==> us[k] == 0)
    && Progress(Val(was[uo..]), Val(qs[qo..qo + j]), vw, Pow(m + 1 - j), Val(us[uo + j..]))
    && Val(us[uo + j..uo + j + n]) < vw
  }

  lemma NoneSoFar(us: seq<int>, qs: seq<int>, uo: nat, qo: nat, n: nat, m: nat, vw: int)
    requires |us| == uo + m + n + 1 && |qs| == qo + m + 1 && Digits(us) && Val(us[uo..uo + n]) < vw
    ensures SoFar(us, qs, us, qs, uo, qo, n, m, 0, vw)
  {
    assert qs[qo..qo] == [];
  }

  lemma OneMoreDigit(us: seq<int>, us': seq<int>, qs: seq<int>, was: seq<int>, q0: seq<int>, uo: nat, qo: nat, n: nat,
                     m: nat, j: nat, vw: int, d: int)
    requires SoFar(us, qs, was, q0, uo, qo, n, m, j, vw) && j <= m
    requires |us'| == |us| && Digits(us') && 0 <= d < B
    requires us'[..uo + j] == us[..uo + j] && us'[uo + j + n + 1..] == us[uo + j + n + 1..]
    requires Split(Val(us[uo + j..uo + j + n + 1]), d, vw, Val(us'[uo + j + 1..uo + j + n + 1]))
    requires us'[uo + j] == 0 && Val(us'[uo + j + 1..uo + j + 1 + n]) < vw
    ensures SoFar(us', qs[qo + j := d], was, q0, uo, qo, n, m, j + 1, vw)
  {
    hide Progress, Split, Val, Pow;
    var qs' := qs[qo + j := d];
    assert us'[..uo] == us'[..uo + j][..uo] == us[..uo + j][..uo] == us[..uo];
    assert forall k :: uo <= k < uo + j ==> us'[k] == us'[..uo + j][k] == us[..uo + j][k];
    assert qs'[qo..qo + j] == qs[qo..qo + j] && qs'[..qo] == qs[..qo] && qs'[qo..qo + j + 1] == qs[qo..qo + j] + [d];
    TurnStep(us, us', qs', Val(was[uo..]), vw, uo + j, qo, n, j, d);
  }

  lemma AllDigits(us: seq<int>, qs: seq<int>, was: seq<int>, q0: seq<int>, uo: nat, qo: nat, n: nat, m: nat, vw: int)
    requires SoFar(us, qs, was, q0, uo, qo, n, m, m + 1, vw)
    ensures Split(Val(was[uo..]), Val(qs[qo..]), vw, Val(us[uo + m + 1..])) && Val(us[uo + m + 1..]) < vw
    ensures Digits(us) && Digits(qs[qo..]) && us[..uo] == was[..uo] && qs[..qo] == q0[..qo]
    ensures forall k :: uo <= k <= uo + m ==> us[k] == 0
  {
    assert qs[qo..qo + m + 1] == qs[qo..] && us[uo + m + 1..uo + m + 1 + n] == us[uo + m + 1..];
  }

  // Program D on normalised digits: u[uo..uo+m+n] divided by v[vo+1..vo+n].
  method DivideDigits(u: array<int>, uo: nat, v: array<int>, vo: nat, q: array<int>, qo: nat, n: nat, m: nat)
    requires u != v && u != q && v != q && n >= 2
    requires uo + m + n + 1 == u.Length && vo + n + 1 == v.Length && qo + m + 1 == q.Length
    requires Digits(u[..]) && Digits(v[..]) && v[vo + 1] >= B / 2
    requires Val(u[..][uo..uo + n]) < Val(v[..][vo + 1..])
    modifies u, q
    ensures Digits(u[..]) && Digits(q[qo..])
    ensures u[..uo] == old(u[..uo]) && q[..qo] == old(q[..qo])
    ensures forall k :: uo <= k <= uo + m ==> u[k] == 0
    ensures Split(old(Val(u[..][uo..])), Val(q[..][qo..]), Val(v[..][vo + 1..]), Val(u[..][uo + m + 1..]))
    ensures Val(u[..][uo + m + 1..]) < Val(v[..][vo + 1..])
  {
    hide Val, Split, SoFar;
    ghost var was, vs, q0 := u[..], v[..], q[..];
    ghost var vw := Val(vs[vo + 1..]);
    var j := 0;
    NoneSoFar(was, q0, uo, qo, n, m, vw);
    while j <= m
      invariant 0 <= j <= m + 1 && v[..] == vs
      invariant SoFar(u[..], q[..], was, q0, uo, qo, n, m, j, vw)
    {
      ghost var us, qs := u[..], q[..];
      WindowReady(us, qs, was, q0, uo, qo, n, m, j, vw);
      var qhat := DivideWindow(u, uo + j, v, vo, n);
      OneMoreDigit(us, u[..], qs, was, q0, uo, qo, n, m, j, vw, qhat) by {
        assert u[..uo + j] == u[..][..uo + j];
      }
      q[qo + j] := qhat;
      assert q[..] == qs[qo + j := qhat];
      j := j + 1;
    }
    AllDigits(u[..], q[..], was, q0, uo, qo, n, m, vw);
    assert q[qo..] == q[..][qo..] && u[..uo] == u[..][..uo] && q[..qo] == q[..][..qo];
  }

  lemma WindowReady(us: seq<int>, qs: seq<int>, was: seq<int>, q0: seq<int>, uo: nat, qo: nat, n: nat, m: nat,
                    j: nat, vw: int)
    requires SoFar(us, qs, was, q0, uo, qo, n, m, j, vw) && j <= m
    ensures Digits(us) && |us| == uo + m + n + 1 && Val(us[uo + j..uo + j + n]) < vw
  {
  }

  // DivideDigit, stated on slices of the whole arrays.
  method DivideWindow(u: array<int>, ub: nat, v: array<int>, vo: nat, n: nat) returns (qhat: nat)
    requires u != v && n >= 2 && ub + n < u.Length && vo + n + 1 == v.Length
    requires Digits(u[..]) && Digits(v[..]) && v[vo + 1] >= B / 2
    requires Val(u[..][ub..ub + n]) < Val(v[..][vo + 1..])
    modifies u
    ensures Digits(u[..]) && 0 <= qhat < B
    ensures u[..ub] == old(u[..ub]) && u[..][ub + n + 1..] == old(u[..][ub + n + 1..])
    ensures Split(old(Val(u[..][ub..ub + n + 1])), qhat, Val(v[..][vo + 1..]), Val(u[..][ub + 1..ub + n + 1]))
    ensures u[ub] == 0 && Val(u[..][ub + 1..ub + 1 + n]) < Val(v[..][vo + 1..])
  {
    hide Val, Split;
    assert v[vo + 1..vo + n + 1] == v[..][vo + 1..];
    assert u[ub..ub + n] == u[..][ub..ub + n] && u[ub..ub + n + 1] == u[..][ub..ub + n + 1];
    assert u[ub + n + 1..] == u[..][ub + n + 1..];
    qhat := DivideDigit(u, ub, v, vo, n);
    assert u[ub + 1..ub + n + 1] == u[..][ub + 1..ub + n + 1] && u[ub + n + 1..] == u[..][ub + n + 1..];
  }

  // ---------- the remainder ----------

  // One digit of the shift back: its own high bits below the low bits of its neighbour.
  lemma UnshiftDigit(x: nat, y: nat, d: nat)
    requires x < B && y < B && 0 < d < 16
    ensures var z := BitOr(Shr(x, d), LHalf(Shl(y, 16 - d)));
            z < B && Split(z * Pow2(d), y % Pow2(d), B, x - x % Pow2(d))
  {
    hide BitOr, Pow2;
    Pow2Halves(d);
    ShiftDigit(y, x, 16 - d);
    BitOrCommutes(Shr(x, d), LHalf(Shl(y, 16 - d)));
    UnshiftedLow(y, Pow2(16 - d), Pow2(d));
    UnshiftedBack(x, y, Pow2(16 - d), Pow2(d));
  }

  lemma UnshiftedBack(x: nat, y: nat, p: nat, f: nat)
    requires p > 0 && f > 0 && f * p == B
    ensures (y % f * p + x / f) * f == x - x % f + y % f * B
  {
    assert x == x / f * f + x % f;
    assert (y % f * p + x / f) * f == y % f * (f * p) + x / f * f;
  }

  lemma {:induction false} BitOrCommutes(a: nat, b: nat)
    ensures BitOr(a, b) == BitOr(b, a)
    decreases a + b
  {
    if a != 0 || b != 0 { BitOrCommutes(a / 2, b / 2); }
  }

  // Shifting a digit up by the complement keeps exactly its low bits.
  lemma UnshiftedLow(y: nat, p: nat, f: nat)
    requires p > 0 && f > 0 && p * f == B
    ensures (y * p) % B == y % f * p
  {
    var c, e := y / f, y % f;
    assert y * p == c * B + e * p by { assert y == c * f + e; assert (c * f + e) * p == c * (p * f) + e * p; }
    MulMono(e + 1, f, p);
    assert (e + 1) * p == e * p + p;
    MulMono(0, e, p);
    DivModUnique(y * p, B, c, e * p);
  }

  // After the digits of rank below k are shifted back by f = 2^d.
  ghost predicate Unshifted(ns: int, xs: int, f: int, first: int, last: int, w: int)
  {
    ns * f == xs - first + last * w
  }

  lemma UnshiftStep(ns: int, xs: int, f: int, first: int, last: int, w: int, z: int, x: int, last': int)
    requires Unshifted(ns, xs, f, first, last, w) && Split(z * f, last', B, x - last)
    ensures Unshifted(z * w + ns, x * w + xs, f, first, last', w * B)
  {
    assert (z * w + ns) * f == z * f * w + ns * f;
    assert (x - last + last' * B) * w == x * w - last * w + last' * (w * B);
  }

  // One turn of the shift back, on the digit strings; `us'` is `us` with digit i replaced.
  lemma UnshiftColumn(us: seq<int>, was: seq<int>, i: nat, end: nat, d: nat, z: int)
    requires |us| == |was| && 1 <= i < end <= |us|
    requires us[..i + 1] == was[..i + 1]
    requires Split(z * Pow2(d), was[i - 1] % Pow2(d), B, was[i] - was[i] % Pow2(d))
    requires Unshifted(Low(us, end, end - i - 1), Low(was, end, end - i - 1), Pow2(d), was[end - 1] % Pow2(d),
                       was[i] % Pow2(d), Pow(end - i - 1))
    ensures Unshifted(Low(us[i := z], end, end - i), Low(was, end, end - i), Pow2(d), was[end - 1] % Pow2(d),
                      was[i - 1] % Pow2(d), Pow(end - i))
    ensures us[i := z][..i] == was[..i]
  {
    var us', k := us[i := z], end - i - 1;
    assert us'[end - k..end] == us[end - k..end];
    assert us'[..i] == us[..i + 1][..i] == was[..i + 1][..i] == was[..i];
    LowStep(us', end, k);
    LowStep(was, end, k);
    UnshiftStep(Low(us, end, k), Low(was, end, k), Pow2(d), was[end - 1] % Pow2(d), was[i] % Pow2(d), Pow(k),
                z, was[i], was[i - 1] % Pow2(d));
  }

  // Divides the n digits u[lo..lo+n] by 2^d; the digit before them must be zero.
  method ShiftBack(u: array<int>, lo: nat, n: nat, d: nat)
    requires 1 <= lo && 1 <= n && lo + n <= u.Length && 0 < d < 16
    requires Digits(u[..]) && u[lo - 1] == 0
    modifies u
    ensures Digits(u[..]) && u[..lo] == old(u[..lo])
    ensures Scaled(Low(old(u[..]), lo + n, n) - old(u[lo + n - 1]) % Pow2(d), Low(u[..], lo + n, n), Pow2(d))
  {
    hide Pow, Val, Unshifted, Split, Scaled, Pow2, BitOr, Shr, Shl, LHalf;
    ghost var was := u[..];
    var i := lo + n - 1;
    UnshiftNothing(was, lo + n, d);
    while i >= lo
      invariant lo - 1 <= i < lo + n
      invariant Digits(u[..]) && u[..i + 1] == was[..i + 1]
      invariant Unshifted(Low(u[..], lo + n, lo + n - i - 1), Low(was, lo + n, lo + n - i - 1), Pow2(d),
                          was[lo + n - 1] % Pow2(d), was[i] % Pow2(d), Pow(lo + n - i - 1))
    {
      ghost var us := u[..];
      assert u[i] == u[..i + 1][i] == was[i] && u[i - 1] == u[..i + 1][i - 1] == was[i - 1];
      UnshiftDigit(u[i], u[i - 1], d);
      u[i] := BitOr(Shr(u[i], d), LHalf(Shl(u[i - 1], 16 - d)));
      assert u[..] == us[i := u[i]];
      UnshiftColumn(us, was, i, lo + n, d, u[i]);
      i := i - 1;
    }
    UnshiftDone(Low(u[..], lo + n, n), Low(was, lo + n, n), Pow2(d), was[lo + n - 1] % Pow2(d), Pow(n)) by {
      assert was[i] == 0;
      ZeroMod(Pow2(d));
    }
    assert u[i] == u[..i + 1][i] == was[i];
    ghost var us := u[..];
    u[i] := 0;
    assert u[..] == us;
    assert u[..lo] == was[..lo];
  }

  lemma UnshiftNothing(was: seq<int>, end: nat, d: nat)
    requires 1 <= end <= |was|
    ensures Unshifted(Low(was, end, 0), Low(was, end, 0), Pow2(d), was[end - 1] % Pow2(d), was[end - 1] % Pow2(d),
                      Pow(0))
  {
  }

  lemma ZeroMod(f: int)
    requires f > 0
    ensures 0 % f == 0
  {
  }

  lemma UnshiftDone(ns: int, xs: int, f: int, first: int, w: int)
    requires Unshifted(ns, xs, f, first, 0, w)
    ensures Scaled(xs - first, ns, f)
  {
  }

  // ---------- __qdivrem ----------

  // The union of two words, high word first.
  function Quad(h: nat, l: nat): nat { h * WORD + l }

  lemma SplitQuad(x: nat)
    requires x < QUAD
    ensures var h, l := x / WORD, x % WORD;
            && Digits([HHalf(h), LHalf(h), HHalf(l), LHalf(l)])
            && Val([HHalf(h), LHalf(h), HHalf(l), LHalf(l)]) == x
  {
    var h, l := x / WORD, x % WORD;
    ValFour([HHalf(h), LHalf(h), HHalf(l), LHalf(l)]);
  }

  lemma JoinQuad(s: seq<int>)
    requires |s| == 5 && Digits(s)
    ensures Quad(Combine(s[1], s[2]), Combine(s[3], s[4])) == Val(s[1..])
  {
    ValFour(s[1..]);
    CombineIs(s[1], s[2]);
    CombineIs(s[3], s[4]);
  }

  // Leading zeros do not change the number.
  lemma ValSkipZeros(s: seq<int>, lo: nat, mid: nat)
    requires lo <= mid <= |s| && forall k :: lo <= k < mid ==> s[k] == 0
    ensures Val(s[lo..]) == Val(s[mid..])
  {
    ValSliceSplit(s, lo, mid, |s|);
    ValZeros(s[lo..mid]);
    assert s[lo..|s|] == s[lo..] && s[mid..|s|] == s[mid..];
  }

  // The number of a digit string lies between the weights of its leading digit.
  lemma ValLeading(s: seq<int>)
    requires Digits(s) && s != []
    ensures s[0] * Pow(|s| - 1) <= Val(s) < (s[0] + 1) * Pow(|s| - 1)
  {
    assert s == s[0..|s|] && s[1..] == s[1..|s|];
    ValSliceLeft(s, 0, |s|);
    ValBound(s[1..]);
    assert (s[0] + 1) * Pow(|s| - 1) == s[0] * Pow(|s| - 1) + Pow(|s| - 1);
  }

  method BreakIntoDigits(x: nat) returns (a: array<int>)
    requires x < QUAD
    ensures fresh(a) && a.Length == 5 && a[0] == 0
    ensures Digits(a[..]) && Val(a[..][1..]) == x
  {
    SplitQuad(x);
    var h, l := x / WORD, x % WORD;
    a := new int[5](_ => 0);
    a[1] := HHalf(h);
    a[2] := LHalf(h);
    a[3] := HHalf(l);
    a[4] := LHalf(l);
    assert a[..][1..] == [HHalf(h), LHalf(h), HHalf(l), LHalf(l)];
  }

  // Exercise 16 of section 4.3.1: schoolbook division by one digit t. The digits read so
  // far form `un`, with quotient q and remainder r.
  ghost predicate Divided(un: int, q: int, t: int, r: int)
  {
    un == q * t + r && 0 <= r < t
  }

  lemma NextDigit(un: int, q: int, t: int, r: int, x: int)
    requires Divided(un, q, t, r) && 0 <= x < B && 0 <= q
    ensures t > 0
    ensures 0 <= (r * B + x) / t < B && 0 <= (r * B + x) % t < t
    ensures Divided(un * B + x, q * B + (r * B + x) / t, t, (r * B + x) % t)
  {
    var n := r * B + x;
    QuotientIsDigit(r, x, t);
    DivBounds(n, t);
    assert n == n / t * t + n % t;
    assert (q * B + n / t) * t == q * t * B + n / t * t;
  }

  lemma QuotientIsDigit(r: nat, x: nat, t: nat)
    requires r < t && x < B
    ensures 0 <= (r * B + x) / t < B
  {
    MulMono(r + 1, t, B);
    DivBounds(r * B + x, t);
    MulStrict((r * B + x) / t, B, t);
    MulStrict(0, (r * B + x) / t + 1, t);
  }

  method ShortDivide(u: array<int>, t: nat) returns (quot: nat, rem: nat)
    requires u.Length == 5 && Digits(u[..]) && 0 < t < B
    ensures Divided(Val(u[..][1..]), quot, t, rem)
  {
    hide Val, Combine, Divided;
    StartDivided(t);
    NextDigit(0, 0, t, 0, u[1]);
    var q1 := u[1] / t;
    ghost var un, q := u[1] as int, q1;
    CombineIs(u[1] % t, u[2]);
    NextDigit(un, q, t, u[1] % t, u[2]);
    var rbj := Combine(u[1] % t, u[2]);
    var q2 := rbj / t;
    un, q := un * B + u[2], q * B + q2;
    CombineIs(rbj % t, u[3]);
    NextDigit(un, q, t, rbj % t, u[3]);
    rbj := Combine(rbj % t, u[3]);
    var q3 := rbj / t;
    un, q := un * B + u[3], q * B + q3;
    CombineIs(rbj % t, u[4]);
    NextDigit(un, q, t, rbj % t, u[4]);
    rbj := Combine(rbj % t, u[4]);
    var q4 := rbj / t;
    un, q := un * B + u[4], q * B + q4;
    rem := rbj % t;
    CombineIs(q1, q2);
    CombineIs(q3, q4);
    quot := Quad(Combine(q1, q2), Combine(q3, q4));
    ValFour(u[..][1..]);
  }

  lemma StartDivided(t: int)
    requires t > 0
    ensures Divided(0, 0, t, 0)
  {
  }

  // Scaling dividend and divisor alike scales the remainder and keeps the quotient.
  lemma Unscale(u: int, v: int, f: int, q: int, r': int, u': int, v': int)
    requires 0 < f && 0 < v && Scaled(u', u, f) && Scaled(v', v, f) && Split(u', q, v', r') && 0 <= r' < v'
    ensures u / v == q && Scaled(r', u % v, f) && r' % f == 0
  {
    var r := u - q * v;
    assert r * f == r' by { assert (u - q * v) * f == u * f - q * (v * f); }
    MulStrict(r, v, f);
    if r < 0 { MulMono(r, -1, f); }
    DivModUnique(u, v, q, r);
    ModOfMultiple(f, r);
    assert f * r == r * f;
  }

  lemma ScaleStep(v1: int, d: nat)
    ensures v1 * Pow2(d + 1) == v1 * Pow2(d) * 2
  {
  }

  lemma ScaleBound(v1: nat, d: nat)
    requires 0 < v1 && v1 * Pow2(d) < B
    ensures d < 16
  {
    MulGrows(Pow2(d), v1);
    Pow2Monotone(16, d);
    Pow2Sixteen();
  }

  lemma ScaleStart(v1: int)
    ensures v1 * Pow2(0) == v1
  {
  }

  // D1: the shift count that brings the leading digit to at least B / 2.
  method Normaliser(v1: nat) returns (d: nat)
    requires 0 < v1 < B
    ensures d < 16 && B / 2 <= v1 * Pow2(d) < B
  {
    hide Pow2;
    var t := v1;
    d := 0;
    ScaleStart(v1);
    while t < B / 2
      invariant 0 < t < B && t == v1 * Pow2(d)
      decreases B - t
    {
      ScaleStep(v1, d);
      t := t * 2;
      d := d + 1;
    }
    ScaleBound(v1, d);
  }

  // D1 for both operands: scales the n-digit divisor and the dividend by the same power of two.
  method Normalise(u: array<int>, uo: nat, v: array<int>, vo: nat, n: nat) returns (d: nat)
    requires u != v && u.Length == 5 && v.Length == 5 && 2 <= n && vo + n == 4 && uo < 4
    requires Digits(u[..]) && Digits(v[..]) && u[uo] == 0 && v[vo + 1] > 0
    modifies u, v
    ensures d < 16 && Digits(u[..]) && Digits(v[..]) && u[..uo] == old(u[..uo])
    ensures v[vo + 1] >= B / 2
    ensures Scaled(Val(u[..][uo..]), old(Val(u[..][uo..])), Pow2(d))
    ensures Scaled(Val(v[..][vo + 1..]), old(Val(v[..][vo + 1..])), Pow2(d))
  {
    d := Normaliser(v[vo + 1]);
    if d > 0 {
      ghost var us, vs := u[..], v[..];
      ShiftLeft(u, uo, 4 - uo, d);
      assert Val(u[..][uo..]) == Val(us[uo..]) * Pow2(d);
      ShiftLeft(v, vo + 1, n - 1, d);
      assert vs[vo + 1] * Pow2(d) / B == 0;
      assert Val(v[..][vo + 1..]) == Val(vs[vo + 1..]) * Pow2(d);
      NormalisedDigit(vs[vo + 1..], v[..][vo + 1..], Pow2(d));
    }
  }

  // The leading digit of a scaled number is at least the scaled leading digit.
  lemma NormalisedDigit(s: seq<int>, s': seq<int>, f: int)
    requires |s| == |s'| > 0 && Digits(s) && Digits(s') && 0 <= f && Val(s') == Val(s) * f
    ensures s'[0] >= s[0] * f
  {
    hide Val, Pow;
    PowPositive(|s| - 1);
    ValLeading(s);
    ValLeading(s');
    LeadingScales(s[0], s'[0], Val(s), f, Pow(|s| - 1));
  }

  lemma LeadingScales(x: int, x': int, n: int, f: int, p: int)
    requires 0 <= f && 0 < p && x * p <= n && n * f < (x' + 1) * p
    ensures x' >= x * f
  {
    MulMono(x * p, n, f);
    assert x * p * f == x * f * p;
    MulStrict(x * f, x' + 1, p);
  }

  lemma {:induction false} PowMonotone(j: nat, k: nat)
    ensures j <= k ==> Pow(j) <= Pow(k)
  {
    if j < k {
      PowMonotone(j, k - 1);
      PowPositive(k - 1);
    }
  }

  // The dividend has m >= 0 digits more than the divisor.
  lemma EnoughDigits(us: seq<int>, vs: seq<int>)
    requires Digits(us) && Digits(vs) && us != [] && us[0] == 0 && vs != [] && vs[0] > 0
    requires Val(us) >= Val(vs)
    ensures |us| > |vs|
  {
    ValLeading(us);
    LeadingSomething(vs);
    PowMonotone(|us| - 1, |vs| - 1);
  }

  // After scaling by f, the top n digits of the dividend are below the divisor.
  lemma TopBelowDivisor(us: seq<int>, us': seq<int>, vs: seq<int>, vs': seq<int>, n: nat, m: nat, f: int)
    requires 1 <= n && |us| == |us'| == m + n + 1 && |vs| == |vs'| == n && 0 < f
    requires Digits(us) && Digits(us') && Digits(vs) && us[0] == 0 && vs[0] > 0
    requires Scaled(Val(us'), Val(us), f) && Scaled(Val(vs'), Val(vs), f)
    ensures Val(us'[..n]) < Val(vs')
  {
    hide Val, Pow, Scaled, Split, Digits, Under;
    LeadingNothing(us, m, n);
    LeadingSomething(vs);
    PowPositive(m + 1);
    PowPositive(n - 1);
    SplitTop(us', n, m + 1);
    TopAlgebra(Val(us), Val(vs), Pow(n - 1), Pow(m + 1), f, Val(us'[..n]), Val(us'[n..]), Val(us'), Val(vs'));
  }

  ghost predicate Under(x: int, w: int, p: int) {
    x < w * p
  }

  lemma SplitTop(s: seq<int>, n: nat, k: nat)
    requires |s| == n + k && Digits(s)
    ensures Split(Val(s), Val(s[..n]), Pow(k), Val(s[n..])) && 0 <= Val(s[n..])
  {
    hide Val, Pow, Split;
    SplitAt(s, n);
    ValBound(s[n..]);
  }

  lemma LeadingNothing(us: seq<int>, m: nat, n: nat)
    requires 1 <= n && |us| == m + n + 1 && Digits(us) && us[0] == 0
    ensures Under(Val(us), Pow(m + 1), Pow(n - 1))
  {
    hide Val, Pow, Digits;
    ValLeading(us);
    PowAdd(m + 1, n - 1);
    assert |us| - 1 == m + 1 + (n - 1);
  }

  lemma LeadingSomething(vs: seq<int>)
    requires vs != [] && Digits(vs) && vs[0] > 0
    ensures Pow(|vs| - 1) <= Val(vs)
  {
    hide Val, Pow, Digits;
    ValLeading(vs);
    PowPositive(|vs| - 1);
    MulMono(1, vs[0], Pow(|vs| - 1));
  }

  lemma SplitAt(s: seq<int>, n: nat)
    requires n <= |s|
    ensures Split(Val(s), Val(s[..n]), Pow(|s| - n), Val(s[n..]))
  {
    assert s[0..|s|] == s && s[0..n] == s[..n] && s[n..|s|] == s[n..];
    ValSliceSplit(s, 0, n, |s|);
  }

  lemma TopAlgebra(un: int, vn: int, p: int, w: int, f: int, top: int, low: int, un': int, vn': int)
    requires 0 < f && 0 < p && 0 < w && Under(un, w, p) && p <= vn
    requires Scaled(un', un, f) && Scaled(vn', vn, f) && Split(un', top, w, low) && 0 <= low
    ensures top < vn'
  {
    MulMono(un + 1, w * p, f);
    assert (un + 1) * f == un * f + f;
    assert w * p * f == p * f * w;
    MulStrict(top, p * f, w);
    MulMono(p, vn, f);
  }

  // Skips the leading zeros of the dividend; m is by how many digits it is the longer.
  method DividendLength(u: array<int>, v: array<int>, vo: nat, n: nat) returns (uo: nat, m: nat)
    requires u.Length == 5 && v.Length == 5 && 2 <= n && vo + n == 4
    requires Digits(u[..]) && Digits(v[..]) && u[0] == 0 && v[vo + 1] > 0
    requires Val(u[..][1..]) >= Val(v[..][vo + 1..])
    ensures uo + m + n == 4 && Val(u[..][uo..]) == Val(u[..][1..])
    ensures forall k :: 0 <= k <= uo ==> u[k] == 0
  {
    hide Val;
    m, uo := 4 - n, 0;
    while u[uo + 1] == 0
      invariant 0 <= m && uo == 4 - n - m
      invariant forall k :: 0 <= k <= uo ==> u[k] == 0
      invariant Val(u[..][uo + 1..]) == Val(u[..][1..])
      decreases m
    {
      ValSkipZeros(u[..], uo + 1, uo + 2);
      EnoughDigits(u[..][uo + 1..], v[..][vo + 1..]);
      m := m - 1;
      uo := uo + 1;
    }
    ValSkipZeros(u[..], uo, uo + 1);
  }

  method ClearQuotient(m: nat) returns (q: array<int>, qo: nat)
    requires m <= 4
    ensures fresh(q) && q.Length == 5 && qo == 4 - m
    ensures forall k :: 0 <= k < qo ==> q[k] == 0
  {
    q := new int[5];
    var i := 4 - m;
    while i > 0
      invariant 0 <= i <= 4 - m
      invariant forall k :: i <= k < 4 - m ==> q[k] == 0
    {
      i := i - 1;
      q[i] := 0;
    }
    qo := 4 - m;
  }

  // The long case: a divisor of n >= 2 digits v[vo+1..], no leading zeros.
  method LongDivide(u: array<int>, v: array<int>, vo: nat, n: nat, wantRem: bool) returns (quot: nat, rem: Option<nat>)
    requires u != v && u.Length == 5 && v.Length == 5 && 2 <= n && vo + n == 4
    requires Digits(u[..]) && Digits(v[..]) && u[0] == 0 && v[vo + 1] > 0
    requires Val(u[..][1..]) >= Val(v[..][vo + 1..])
    modifies u, v
    ensures old(Val(v[..][vo + 1..])) > 0
    ensures quot == old(Val(u[..][1..])) / old(Val(v[..][vo + 1..]))
    ensures rem == if wantRem then Some(old(Val(u[..][1..])) % old(Val(v[..][vo + 1..]))) else None
  {
    hide Val, Pow, Pow2, BitOr, Combine, Split, Scaled;
    ghost var us, vs := u[..], v[..];
    ghost var un, vn := Val(us[1..]), Val(vs[vo + 1..]);
    DivisorPositive(vs[vo + 1..]);
    var uo, m := DividendLength(u, v, vo, n);
    var q, qo := ClearQuotient(m);
    var d := Normalise(u, uo, v, vo, n);
    TopBelowDivisor(us[uo..], u[..][uo..], vs[vo + 1..], v[..][vo + 1..], n, m, Pow2(d));
    assert u[..][uo..][..n] == u[..][uo..uo + n];
    ghost var un', vn', qs := Val(u[..][uo..]), Val(v[..][vo + 1..]), q[..];
    assert forall k :: 0 <= k < uo ==> u[k] == u[..uo][k] == us[k];
    ghost var us' := u[..];
    DivideDigits(u, uo, v, vo, q, qo, n, m);
    assert forall k :: 0 <= k < uo ==> u[k] == u[..uo][k] == us'[k];
    assert forall k :: 0 <= k < qo ==> q[k] == q[..qo][k] == qs[k];
    ValBound(u[..][uo + m + 1..]);
    Unscale(un, vn, Pow2(d), Val(q[..][qo..]), Val(u[..][uo + m + 1..]), un', vn');
    assert q[qo..] == q[..][qo..];
    QuotientDigits(q[..], qo);
    rem := None;
    if wantRem {
      var r := Remainder(u, uo + m + 1, n, d, un % vn);
      rem := Some(r);
    }
    quot := Quad(Combine(q[1], q[2]), Combine(q[3], q[4]));
  }

  lemma DivisorPositive(s: seq<int>)
    requires Digits(s) && s != [] && s[0] > 0
    ensures Val(s) > 0
  {
    LeadingSomething(s);
    PowPositive(|s| - 1);
  }

  lemma QuotientDigits(s: seq<int>, qo: nat)
    requires |s| == 5 && 1 <= qo <= 5 && Digits(s[qo..]) && forall k :: 0 <= k < qo ==> s[k] == 0
    ensures Digits(s) && Quad(Combine(s[1], s[2]), Combine(s[3], s[4])) == Val(s[qo..])
  {
    assert forall k :: qo <= k < 5 ==> s[k] == s[qo..][k - qo];
    ValSkipZeros(s, 1, qo);
    JoinQuad(s);
  }

  // The low n digits of u, shifted back by d, are the remainder.
  method Remainder(u: array<int>, lo: nat, n: nat, d: nat, ghost r: int) returns (rem: nat)
    requires u.Length == 5 && 1 <= lo && 1 <= n && lo + n == 5 && d < 16
    requires Digits(u[..]) && forall k :: 0 <= k < lo ==> u[k] == 0
    requires Scaled(Val(u[..][lo..]), r, Pow2(d)) && Val(u[..][lo..]) % Pow2(d) == 0
    modifies u
    ensures rem == r
  {
    hide Val, Pow, Pow2, BitOr, Combine, Scaled;
    if d > 0 {
      ghost var us := u[..];
      ShiftBack(u, lo, n, d);
      LowIsSuffix(us, n);
      LowIsSuffix(u[..], n);
      LastDigitMod(us[lo..], d);
      assert us[lo..][n - 1] == us[4];
      assert forall k :: 0 <= k < lo ==> u[k] == u[..lo][k] == us[..lo][k] == 0;
      SameMultiple(Val(us[lo..]), Val(u[..][lo..]), r, Pow2(d));
    } else {
      PowTwoZero(Val(u[..][lo..]));
      SameMultiple(Val(u[..][lo..]), Val(u[..][lo..]), r, Pow2(d));
    }
    ValSkipZeros(u[..], 1, lo);
    JoinQuad(u[..]);
    rem := Quad(Combine(u[1], u[2]), Combine(u[3], u[4]));
  }

  lemma PowTwoZero(x: int)
    ensures Scaled(x, x, Pow2(0))
  {
  }

  lemma SameMultiple(n: int, x: int, y: int, f: int)
    requires f > 0 && Scaled(n, x, f) && Scaled(n, y, f)
    ensures x == y
  {
    assert (x + 1) * f == x * f + f && (y + 1) * f == y * f + f;
    MulStrict(x, y + 1, f);
    MulStrict(y, x + 1, f);
  }

  // A number divisible by 2^d has a last digit divisible by 2^d.
  lemma LastDigitMod(s: seq<int>, d: nat)
    requires s != [] && d < 16 && Val(s) % Pow2(d) == 0
    ensures s[|s| - 1] % Pow2(d) == 0
  {
    hide Pow2;
    Pow2Halves(d);
    RestOfMultiple(Val(s), Val(s[..|s| - 1]), s[|s| - 1], Pow2(d), Pow2(16 - d));
  }

  lemma RestOfMultiple(n: int, hi: int, x: int, f: int, p: int)
    requires f > 0 && f * p == B && n % f == 0 && n == hi * B + x
    ensures x % f == 0
  {
    var k := n / f;
    assert n == k * f;
    assert x == k * f - hi * (f * p);
    assert k * f - hi * (f * p) == f * (k - hi * p);
    ModOfMultiple(f, k - hi * p);
  }

  // __qdivrem: the exact quotient and remainder of any two 64-bit numbers.
  method QDivRem(uq: nat, vq: nat, wantRem: bool) returns (res: Outcome)
    requires uq < QUAD && vq < QUAD
    ensures res.Trap? <==> vq == 0
    ensures vq != 0 ==> res == Done(uq / vq, if wantRem then Some(uq % vq) else None)
  {
    hide Val, Pow;
    if vq == 0 {
      return Trap;
    }
    if uq < vq {
      return Done(0, if wantRem then Some(uq) else None);
    }
    var u := BreakIntoDigits(uq);
    var v := BreakIntoDigits(vq);
    var n, vo := 4, 0;
    while v[vo + 1] == 0
      invariant 2 <= n && vo + n == 4
      invariant Digits(v[..]) && Val(v[..][vo + 1..]) == vq && Digits(u[..]) && Val(u[..][1..]) == uq && u[0] == 0
      decreases n
    {
      ValSkipZeros(v[..], vo + 1, vo + 2);
      n := n - 1;
      if n == 1 {
        OnlyDigit(v[..]);
        var quot, rem := ShortDivide(u, v[vo + 2]);
        DividedExactly(uq, quot, vq, rem);
        return Done(quot, if wantRem then Some(rem) else None);
      }
      vo := vo + 1;
    }
    var quot, rem := LongDivide(u, v, vo, n, wantRem);
    return Done(quot, rem);
  }

  lemma DividedExactly(un: int, q: int, t: int, r: int)
    requires Divided(un, q, t, r)
    ensures un / t == q && un % t == r
  {
    DivModUnique(un, t, q, r);
  }

  lemma OnlyDigit(s: seq<int>)
    requires |s| == 5
    ensures Val(s[4..]) == s[4]
  {
    assert s[4..][..0] == [];
  }

  // ---------- the compiler's entry points ----------

  // __udivdi3
  method UDiv(a: nat, b: nat) returns (res: Option<nat>)
    requires a < QUAD && b < QUAD
    ensures res == if b == 0 then None else Some(a / b)
  {
    var o := QDivRem(a, b, false);
    res := if o.Trap? then None else Some(o.quot);
  }

  // __umoddi3
  method UMod(a: nat, b: nat) returns (res: Option<nat>)
    requires a < QUAD && b < QUAD
    ensures res == if b == 0 then None else Some(a % b)
  {
    var o := QDivRem(a, b, true);
    res := if o.Trap? then None else o.rem;
  }

  ghost predicate Signed(x: int) { -QUAD / 2 <= x < QUAD / 2 }

  // The bits of a signed quad read as unsigned, and back.
  function AsUnsigned(x: int): nat { x % QUAD }
  function AsSigned(x: nat): int { if x % QUAD < QUAD / 2 then x % QUAD else x % QUAD - QUAD }

  // __divdi3: what the quotient leaves over is smaller than the divisor and has the sign of
  // the dividend, so that it is rounded toward zero. The one quotient that does not fit, the
  // least number divided by -1, comes back as the least number.
  method SDiv(a: int, b: int) returns (res: Option<int>)
    requires Signed(a) && Signed(b)
    ensures b == 0 <==> res == None
    ensures b != 0 && !(a == -QUAD / 2 && b == -1) ==>
              var r := a - res.value * b;
              (if r < 0 then -r else r) < (if b < 0 then -b else b) && (r == 0 || (r < 0 <==> a < 0))
    ensures a == -QUAD / 2 && b == -1 ==> res == Some(a)
  {
    hide AsUnsigned, AsSigned;
    var ua, ub, neg := AsUnsigned(a), AsUnsigned(b), false;
    Magnitude(a);
    Magnitude(b);
    if a < 0 {
      ua, neg := AsUnsigned(-(AsUnsigned(a) as int)), true;
    }
    if b < 0 {
      ub, neg := AsUnsigned(-(AsUnsigned(b) as int)), !neg;
    }
    var o := QDivRem(ua, ub, false);
    if o.Trap? {
      return None;
    }
    QuotientRange(ua, ub);
    WithSign(neg, o.quot);
    LeftOver(a, b, o.quot);
    return Some(AsSigned(if neg then AsUnsigned(-(o.quot as int)) else o.quot));
  }

  ghost function Abs(x: int): nat { if x < 0 then -x else x }

  lemma LeftOver(a: int, b: int, quot: nat)
    requires b != 0 && quot == Abs(a) / Abs(b)
    ensures var q: int := if (a < 0) != (b < 0) then -(quot as int) else quot;
            a - q * b == if a < 0 then quot * Abs(b) - Abs(a) else Abs(a) - quot * Abs(b)
    ensures quot * Abs(b) <= Abs(a) < quot * Abs(b) + Abs(b)
  {
    DivBounds(Abs(a), Abs(b));
    var n, k: int := quot, Abs(b);
    assert b < 0 ==> n * b == -(n * k) && (-n) * b == n * k;
    assert b > 0 ==> n * b == n * k && (-n) * b == -(n * k);
    assert (n + 1) * k == n * k + k;
  }

  // No other number leaves that over.
  lemma RoundedOneWay(a: int, b: int, p: int, q: int)
    requires b != 0 && Abs(a - p * b) < Abs(b) && (a - p * b == 0 || (a - p * b < 0 <==> a < 0))
    requires Abs(a - q * b) < Abs(b) && (a - q * b == 0 || (a - q * b < 0 <==> a < 0))
    ensures p == q
  {
    assert (p - q) * b == (a - q * b) - (a - p * b);
    assert Abs((p - q) * b) < Abs(b);
    if p != q { TimesOut(p - q, b); }
  }

  lemma TimesOut(x: int, y: int)
    requires x != 0
    ensures Abs(x * y) >= Abs(y)
  {
    assert Abs(x * y) == Abs(x) * Abs(y);
    MulGrows(Abs(y), Abs(x));
  }

  lemma Magnitude(x: int)
    requires Signed(x)
    ensures x >= 0 ==> AsUnsigned(x) == Abs(x)
    ensures x < 0 ==> AsUnsigned(-(AsUnsigned(x) as int)) == Abs(x)
    ensures Abs(x) <= QUAD / 2
  {
    if x < 0 {
      assert AsUnsigned(x) == x + QUAD;
      assert (-x - QUAD) % QUAD == -x;
    }
  }

  lemma WithSign(neg: bool, q: nat)
    requires q <= QUAD / 2
    ensures AsSigned(if neg then AsUnsigned(-(q as int)) else q) == if neg || q == QUAD / 2 then -(q as int) else q
  {
    if neg && q > 0 { assert (-(q as int)) % QUAD == QUAD - q; }
  }

  // Only a unit divisor leaves the largest magnitude as it is.
  lemma QuotientRange(x: nat, y: nat)
    requires 0 < y && x <= QUAD / 2
    ensures 0 <= x / y <= QUAD / 2
    ensures x / y == QUAD / 2 <==> x == QUAD / 2 && y == 1
  {
    DivBounds(x, y);
    DivNonNegative(x, y);
    QuotientShrinks(x, y, x / y);
  }

  lemma QuotientShrinks(x: nat, y: nat, q: nat)
    requires q * y <= x < (q + 1) * y
    ensures q <= x
    ensures y == 1 ==> q == x
    ensures y >= 2 ==> 2 * q <= x
  {
    MulGrows(q, y);
    if y >= 2 { MulMono(2, y, q); }
  }

}
