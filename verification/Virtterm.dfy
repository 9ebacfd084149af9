/**
 A virtual terminal (kernel/drivers/tty/virtterm.c): a circular buffer of 125 rows of 80
 cells, which refines a scrollback of at most 124 rows, and the copying of its rows to the
 screen. A cell that has not been written is zero.
 */
module Virtterm {
  const WIDTH := 80
  const DISPLAY := 2000
  const BUFFER := 10000

  const BACKSPACE := 8
  const NEWLINE := 10
  const RETURN := 13

  // ---------- positions ----------

  // circ_dist
  function Dist(to: nat, from: nat): (r: nat)
    requires to < BUFFER && from < BUFFER
    ensures r < BUFFER && (from + r) % BUFFER == to
  {
    (to - from + BUFFER) % BUFFER
  }

  // next_row
  function NextRow(i: nat): (r: nat)
    requires i < BUFFER
    ensures r < BUFFER && r % WIDTH == 0
  {
    (i / WIDTH + 1) * WIDTH % BUFFER
  }

  // buf_add
  function Add(i: nat, amount: int): (r: nat)
    requires i < BUFFER && -BUFFER <= amount < BUFFER
    ensures r < BUFFER
  {
    (i + amount + BUFFER) % BUFFER
  }

  // ---------- the scrollback ----------

  datatype Scroll = Scroll(text: seq<nat>, cursor: nat)

  ghost predicate ScrollOk(s: Scroll)
  {
    |s.text| % WIDTH == 0 && WIDTH <= |s.text| <= BUFFER - WIDTH && s.cursor < |s.text|
  }

  function Blank(n: nat): (r: seq<nat>)
    ensures |r| == n && forall i :: 0 <= i < n ==> r[i] == 0
  {
    seq(n, _ => 0)
  }

  // One character: the cursor moves back, to the start of its row or on; past the last row
  // there is a new blank one, and if there are too many the oldest one goes.
  function Typed(s: Scroll, c: nat): Scroll
    requires s.cursor < |s.text|
  {
    if c == BACKSPACE then s.(cursor := if s.cursor == 0 then 0 else s.cursor - 1)
    else if c == RETURN then s.(cursor := s.cursor / WIDTH * WIDTH)
    else if c == NEWLINE then Moved(s.text, (s.cursor / WIDTH + 1) * WIDTH)
    else Moved(s.text[s.cursor := c], s.cursor + 1)
  }

  function Moved(text: seq<nat>, next: nat): Scroll
  {
    if next < |text| then Scroll(text, next)
    else if |text| + WIDTH < BUFFER then Scroll(text + Blank(WIDTH), next)
    else Scroll((text + Blank(WIDTH))[WIDTH..], if next < WIDTH then 0 else next - WIDTH)
  }

  lemma TypedOk(s: Scroll, c: nat)
    requires ScrollOk(s)
    ensures ScrollOk(Typed(s, c))
  {
    assert s.cursor / WIDTH * WIDTH <= s.cursor < (s.cursor / WIDTH + 1) * WIDTH <= |s.text|;
  }

  // r is the text with the cursor at `next`: where that is past the last row there is a blank
  // one more, and the oldest of 124 rows makes room for it.
  ghost predicate MovesTo(text: seq<nat>, next: nat, r: Scroll)
  {
    var more := if next == |text| then 80 else 0;
    var gone := if next == |text| == 9920 then 80 else 0;
    && |r.text| + gone == |text| + more && r.cursor + gone == next
    && forall i :: 0 <= i < |r.text| ==> r.text[i] == if i + gone < |text| then text[i + gone] else 0
  }

  // What a character does, by row and column of 80: a return stays in the row, a newline
  // goes to the start of the next one, and any other is put where the cursor is.
  lemma TypedExact(s: Scroll, c: nat)
    requires ScrollOk(s)
    ensures var r := Typed(s, c);
            if c == 8 then r.text == s.text && r.cursor == if s.cursor == 0 then 0 else s.cursor - 1
            else if c == 13 then r.text == s.text && r.cursor / 80 == s.cursor / 80 && r.cursor % 80 == 0
            else if c == 10 then MovesTo(s.text, s.cursor - s.cursor % 80 + 80, r)
            else MovesTo(s.text[s.cursor := c], s.cursor + 1, r)
  {
    var row := s.cursor / WIDTH;
    assert s.cursor == row * WIDTH + s.cursor % WIDTH;
    assert (row + 1) * WIDTH <= |s.text|;
  }

  function Types(s: Scroll, w: seq<nat>): Scroll
    requires ScrollOk(s)
    decreases |w|
  {
    if w == [] then s else TypedOk(s, w[0]); Types(Typed(s, w[0]), w[1..])
  }

  ghost predicate Plain(w: seq<nat>) { forall i :: 0 <= i < |w| ==> w[i] !in {8, 10, 13} }

  // A word that fits its row is written over what was there.
  lemma {:induction false} TypeWord(s: Scroll, w: seq<nat>)
    requires ScrollOk(s) && Plain(w) && s.cursor % 80 + |w| < 80
    ensures s.cursor + |w| < |s.text|
    ensures Types(s, w) == Scroll(s.text[..s.cursor] + w + s.text[s.cursor + |w|..], s.cursor + |w|)
    decreases |w|
  {
    SameRow(s, |w|);
    if w == [] {
      assert s.text[..s.cursor] + [] + s.text[s.cursor..] == s.text;
    } else {
      var r := Typed(s, w[0]);
      assert r == Scroll(s.text[s.cursor := w[0]], s.cursor + 1);
      TypedOk(s, w[0]);
      NextColumn(s.cursor);
      TypeWord(r, w[1..]);
      assert r.text[..r.cursor] + w[1..] + r.text[r.cursor + |w| - 1..]
             == s.text[..s.cursor] + w + s.text[s.cursor + |w|..];
    }
  }

  lemma SameRow(s: Scroll, n: nat)
    requires ScrollOk(s) && s.cursor % 80 + n < 80
    ensures s.cursor + n < |s.text|
  {
    assert (s.cursor / WIDTH + 1) * WIDTH <= |s.text|;
  }

  lemma NextColumn(k: nat)
    requires k % 80 + 1 < 80
    ensures (k + 1) % 80 == k % 80 + 1
  {
  }

  lemma {:induction false} TypesBoth(s: Scroll, u: seq<nat>, w: seq<nat>)
    requires ScrollOk(s)
    ensures ScrollOk(Types(s, u)) && Types(s, u + w) == Types(Types(s, u), w)
    decreases |u|
  {
    if u == [] {
      assert u + w == w;
    } else {
      TypedOk(s, u[0]);
      TypesBoth(Typed(s, u[0]), u[1..], w);
      assert (u + w)[1..] == u[1..] + w;
    }
  }

  // After a return at the end of a word, a word of the same length takes its place.
  lemma Rewrites(s: Scroll, u: seq<nat>, w: seq<nat>)
    requires ScrollOk(s) && s.cursor % 80 == 0 && Plain(u) && Plain(w) && |u| == |w| < 80
    ensures Types(s, u + [13] + w) == Types(s, w)
  {
    hide Types, Typed;
    TypesBoth(s, u + [13], w);
    TypesBoth(s, u, [13]);
    TypeWord(s, u);
    var r := Types(s, u);
    TypesOne(r, 13);
    TypedExact(r, 13);
    var q := Typed(r, 13);
    assert q.cursor == s.cursor by { RowBack(s.cursor, |u|, q.cursor); }
    TypeWord(q, w);
    TypeWord(s, w);
    assert q.text[..s.cursor] == s.text[..s.cursor] && q.text[s.cursor + |u|..] == s.text[s.cursor + |u|..];
  }

  lemma TypesOne(s: Scroll, c: nat)
    requires ScrollOk(s)
    ensures Types(s, [c]) == Typed(s, c)
  {
    TypedOk(s, c);
    assert [c][1..] == [];
  }

  lemma RowBack(k: nat, n: nat, j: nat)
    requires k % 80 == 0 && n < 80 && j / 80 == (k + n) / 80 && j % 80 == 0
    ensures j == k
  {
  }

  // ---------- the buffer as the rows from its head on ----------

  ghost function Rows(b: seq<nat>, head: nat, n: nat): (r: seq<nat>)
    requires |b| == BUFFER && head < BUFFER && n <= BUFFER
    ensures |r| == n && forall i :: 0 <= i < n ==> r[i] == b[(head + i) % BUFFER]
  {
    seq(n, i requires 0 <= i < n => b[(head + i) % BUFFER])
  }

  lemma RowsSet(b: seq<nat>, head: nat, n: nat, k: nat, c: nat)
    requires |b| == BUFFER && head < BUFFER && n <= BUFFER && k < n
    ensures Rows(b[(head + k) % BUFFER := c], head, n) == Rows(b, head, n)[k := c]
  {
    var r, q := Rows(b[(head + k) % BUFFER := c], head, n), Rows(b, head, n)[k := c];
    forall i | 0 <= i < n ensures r[i] == q[i] {
      assert i != k ==> (head + i) % BUFFER != (head + k) % BUFFER;
    }
  }

  // The cells of `n` positions from `tail` on are cleared, round the end of the buffer.
  ghost predicate ClearedFrom(b: seq<nat>, b': seq<nat>, tail: nat, n: nat)
    requires |b| == BUFFER && tail < BUFFER
  {
    |b'| == BUFFER && forall i :: 0 <= i < BUFFER ==> b'[i] == if Dist(i, tail) < n then 0 else b[i]
  }

  lemma RowsGrow(b: seq<nat>, b': seq<nat>, head: nat, n: nat)
    requires |b| == BUFFER && head < BUFFER && n + WIDTH <= BUFFER && ClearedFrom(b, b', (head + n) % BUFFER, WIDTH)
    ensures Rows(b', head, n + WIDTH) == Rows(b, head, n) + Blank(WIDTH)
  {
    var r, q, tail := Rows(b', head, n + WIDTH), Rows(b, head, n) + Blank(WIDTH), (head + n) % BUFFER;
    forall i | 0 <= i < n + WIDTH ensures r[i] == q[i] {
      var p := (head + i) % BUFFER;
      assert i < n ==> Dist(p, tail) >= WIDTH;
      assert i >= n ==> Dist(p, tail) == i - n;
    }
  }

  lemma RowsDrop(b: seq<nat>, head: nat, n: nat)
    requires |b| == BUFFER && head < BUFFER && WIDTH <= n <= BUFFER
    ensures Rows(b, (head + WIDTH) % BUFFER, n - WIDTH) == Rows(b, head, n)[WIDTH..]
  {
    var r, q := Rows(b, (head + WIDTH) % BUFFER, n - WIDTH), Rows(b, head, n)[WIDTH..];
    forall i | 0 <= i < n - WIDTH ensures r[i] == q[i] {
      Around(head + WIDTH);
      Around(head + (WIDTH + i));
      Around((head + WIDTH) % BUFFER + i);
    }
  }

  // ---------- what the screen shows ----------

  // Cell k of the screen: the rows from top to tail, and blanks below.
  ghost function Shown(b: seq<nat>, top: nat, tail: nat, k: nat): nat
    requires |b| == BUFFER && top < BUFFER && tail < BUFFER
  {
    if k < Dist(tail, top) then b[(top + k) % BUFFER] else 0
  }

  // So a screen whose top is in the text is a window on the scrollback, blank past its end.
  lemma ScreenIsWindow(b: seq<nat>, head: nat, tail: nat, top: nat, k: nat)
    requires |b| == BUFFER && head < BUFFER && tail < BUFFER && top < BUFFER && k < DISPLAY
    requires Dist(top, head) <= Dist(tail, head)
    ensures var text, from := Rows(b, head, Dist(tail, head)), Dist(top, head);
            Shown(b, top, tail, k) == if from + k < |text| then text[from + k] else 0
  {
    DistIs(top, head);
    DistIs(tail, head);
    DistIs(tail, top);
    Around(top + k);
    if Dist(top, head) + k < Dist(tail, head) { Around(head + (Dist(top, head) + k)); }
  }

  // What a character does to the cells: it may be put at the cursor, and a row may be
  // cleared at the tail, which is then just after the cursor's row.
  ghost predicate Drawn(b: seq<nat>, b': seq<nat>, tail: nat, tail': nat, cursor: nat, c: nat, echo: bool)
    requires |b| == BUFFER && tail < BUFFER && cursor < BUFFER
  {
    var put := if echo then b[cursor := c] else b;
    if tail' == tail then b' == put
    else Dist(tail, cursor) <= WIDTH && tail' == NextRow(tail) && ClearedFrom(put, b', tail, WIDTH)
  }

  // Where the buffer's positions may be.
  ghost predicate Placed(head: nat, tail: nat, cursor: nat, top: nat)
  {
    && head < BUFFER && tail < BUFFER && cursor < BUFFER && top < BUFFER && head % WIDTH == 0 && tail % WIDTH == 0
    && head != tail && Dist(cursor, head) < Dist(tail, head)
  }

  lemma Around(x: nat)
    requires x < 2 * BUFFER
    ensures x % BUFFER == (if x < BUFFER then x else x - BUFFER) && x % BUFFER % WIDTH == x % WIDTH
  {
  }

  lemma DistIs(to: nat, from: nat)
    requires to < BUFFER && from < BUFFER
    ensures Dist(to, from) == if to >= from then to - from else to - from + BUFFER
  {
  }

  lemma Aligned(h: nat, k: nat)
    requires h % WIDTH == 0
    ensures (h + k) % WIDTH == k % WIDTH
  {
  }

  lemma RowStart(x: nat)
    ensures x / WIDTH * WIDTH == x - x % WIDTH && (x / WIDTH + 1) * WIDTH == x - x % WIDTH + WIDTH
  {
  }

  // The cursor's row and column in the buffer are those in the scrollback.
  lemma RowOf(head: nat, cursor: nat)
    requires head < BUFFER && cursor < BUFFER && head % WIDTH == 0
    ensures var k := Dist(cursor, head);
            && cursor / WIDTH * WIDTH == (head + k / WIDTH * WIDTH) % BUFFER
            && NextRow(cursor) == (head + (k / WIDTH + 1) * WIDTH) % BUFFER
            && Add(cursor, 1) == (head + (k + 1)) % BUFFER
  {
    var k := Dist(cursor, head);
    DistIs(cursor, head);
    Around(head + k);
    Aligned(head, k);
    RowStart(cursor);
    RowStart(k);
    hide Dist;
    Around(head + (k - k % WIDTH));
    RowNext(head, cursor, k);
  }

  lemma RowNext(head: nat, cursor: nat, k: nat)
    requires head < BUFFER && cursor < BUFFER && k < BUFFER && cursor == (head + k) % BUFFER
    requires cursor % WIDTH == k % WIDTH
    ensures (cursor - cursor % WIDTH + WIDTH) % BUFFER == (head + (k - k % WIDTH + WIDTH)) % BUFFER
    ensures Add(cursor, 1) == (head + (k + 1)) % BUFFER
  {
    Around(head + k);
    var r := k % WIDTH;
    Around(cursor - r + WIDTH);
    Around(cursor + 1);
  }

  // A move on by `step` cells reaches the tail exactly if it leaves the last row.
  lemma ReachesTail(head: nat, tail: nat, cursor: nat, next: nat)
    requires Placed(head, tail, cursor, 0) && Dist(cursor, head) < next <= Dist(tail, head)
    ensures var to := (head + next) % BUFFER;
            && (Dist(to, cursor) >= Dist(tail, cursor) <==> next == Dist(tail, head))
            && (next == Dist(tail, head) ==> to == tail)
  {
    Around(head + next);
    var to := (head + next) % BUFFER;
    DistIs(to, cursor);
    DistIs(tail, cursor);
    DistIs(tail, head);
    DistIs(cursor, head);
    hide Dist;
  }

  // The tail moves on by a row; the head does if the buffer is full.
  lemma TailMoves(head: nat, tail: nat)
    requires Placed(head, tail, head, 0)
    ensures var n, newTail := Dist(tail, head), NextRow(tail);
            && newTail == (head + (n + WIDTH)) % BUFFER && n % WIDTH == 0 && n <= BUFFER - WIDTH
            && (Dist(tail, head) >= Dist(tail, newTail) <==> n + WIDTH == BUFFER)
            && (n + WIDTH == BUFFER ==> newTail == head && NextRow(newTail) == (head + WIDTH) % BUFFER)
            && (n + WIDTH < BUFFER ==> Dist(newTail, head) == n + WIDTH)
            && (n + WIDTH == BUFFER ==> Dist(newTail, NextRow(newTail)) == BUFFER - WIDTH)
  {
    DistIs(tail, head);
    var n := Dist(tail, head);
    RowsBetween(head, tail, n);
    RowStart(tail);
    NextRowIs(tail);
    var newTail := NextRow(tail);
    DistIs(tail, newTail);
    DistIs(newTail, head);
    NextRowIs(newTail);
    DistIs(newTail, NextRow(newTail));
    Around(head + WIDTH);
    hide Dist, NextRow;
    TailPlace(head, tail, n);
  }

  lemma NextRowIs(x: nat)
    requires x < BUFFER && x % WIDTH == 0
    ensures NextRow(x) == (if x + WIDTH == BUFFER then 0 else x + WIDTH) && x + WIDTH <= BUFFER
  {
  }

  lemma RowsBetween(head: nat, tail: nat, n: nat)
    requires head < BUFFER && tail < BUFFER && head % WIDTH == 0 && tail % WIDTH == 0 && head != tail
    requires n == if tail >= head then tail - head else tail - head + BUFFER
    ensures n % WIDTH == 0 && WIDTH <= n <= BUFFER - WIDTH
  {
  }

  lemma TailPlace(head: nat, tail: nat, n: nat)
    requires head < BUFFER && tail < BUFFER && tail + WIDTH <= BUFFER && WIDTH <= n <= BUFFER - WIDTH
    requires n == if tail >= head then tail - head else tail - head + BUFFER
    ensures (if tail + WIDTH == BUFFER then 0 else tail + WIDTH) == (head + (n + WIDTH)) % BUFFER
  {
    Around(head + (n + WIDTH));
  }

  // memset to zero
  method Clear(a: array<nat>, off: nat, n: nat)
    requires off + n <= a.Length
    modifies a
    ensures forall i :: 0 <= i < a.Length ==> a[i] == if off <= i < off + n then 0 else old(a[i])
  {
    var i := 0;
    while i < n
      invariant 0 <= i <= n
      invariant forall j :: 0 <= j < a.Length ==> a[j] == if off <= j < off + i then 0 else old(a[j])
    {
      a[off + i] := 0;
      i := i + 1;
    }
  }

  // memcpy
  method Copy(dst: array<nat>, to: nat, src: array<nat>, from: nat, n: nat)
    requires dst != src && to + n <= dst.Length && from + n <= src.Length
    modifies dst
    ensures forall i :: 0 <= i < dst.Length ==> dst[i] == if to <= i < to + n then src[from + (i - to)] else old(dst[i])
  {
    var i := 0;
    while i < n
      invariant 0 <= i <= n
      invariant forall j :: 0 <= j < dst.Length ==>
                  dst[j] == if to <= j < to + i then src[from + (j - to)] else old(dst[j])
    {
      dst[to + i] := src[from + i];
      i := i + 1;
    }
  }

  class Terminal {
    var head: nat
    var tail: nat
    var top: nat
    var cursor: nat
    const buf: array<nat>

    ghost predicate Valid()
      reads this
    {
      buf.Length == BUFFER && Placed(head, tail, cursor, top)
    }

    ghost function Value(): Scroll
      requires Valid()
      reads this, buf
    {
      Scroll(Rows(buf[..], head, Dist(tail, head)), Dist(cursor, head))
    }

    // vt_init
    constructor ()
      ensures Valid() && Value() == Scroll(Blank(WIDTH), 0) && top == 0 && fresh(buf)
    {
      head, tail, top, cursor := 0, WIDTH, 0, 0;
      buf := new nat[BUFFER](_ => 0);
    }

    // The part of vt_handle_char after the cursor has moved on to `to`.
    method HandleTail(to: nat, ghost next: nat)
      requires Valid() && Dist(cursor, head) < next <= Dist(tail, head) && to == (head + next) % BUFFER
      modifies this, buf
      ensures Valid() && Value() == Moved(old(Value()).text, next) && cursor == to && top == old(top)
      ensures tail == if next == Dist(old(tail), old(head)) then NextRow(old(tail)) else old(tail)
      ensures if next == Dist(old(tail), old(head)) then ClearedFrom(old(buf[..]), buf[..], old(tail), WIDTH)
              else buf[..] == old(buf[..])
    {
      ReachesTail(head, tail, cursor, next);
      hide Rows, Blank, Dist, NextRow;
      if Dist(to, cursor) >= Dist(tail, cursor) {
        GrowTail();
      } else {
        CursorPlace(head, tail, to, next);
        cursor := to;
      }
    }

    // The cursor has reached the tail.
    method GrowTail()
      requires Valid()
      modifies this, buf
      ensures Valid() && Value() == Moved(old(Value()).text, |old(Value()).text|) && cursor == old(tail)
              && top == old(top)
      ensures tail == NextRow(old(tail)) && ClearedFrom(old(buf[..]), buf[..], old(tail), WIDTH)
    {
      ghost var b, n := buf[..], Dist(tail, head);
      TailMoves(head, tail);
      hide Rows, Blank, Dist, NextRow;
      var newTail := NextRow(tail);
      var full := Dist(tail, head) >= Dist(tail, newTail);
      ClearTail(newTail);
      RowsGrow(b, buf[..], head, n);
      RowsDrop(buf[..], head, n + WIDTH);
      HeadPlace(head, tail, tail, newTail);
      if full {
        head := NextRow(newTail);
      }
      cursor := tail;
      tail := newTail;
    }

    method ClearTail(newTail: nat)
      requires Valid() && newTail == NextRow(tail)
      modifies buf
      ensures ClearedFrom(old(buf[..]), buf[..], tail, WIDTH)
    {
      NextRowIs(tail);
      if tail <= newTail {
        Clear(buf, tail, newTail - tail);
      } else {
        Clear(buf, tail, BUFFER - tail);
        Clear(buf, 0, newTail);
      }
      forall i | 0 <= i < BUFFER ensures buf[..][i] == if Dist(i, tail) < WIDTH then 0 else old(buf[..])[i] {
        DistIs(i, tail);
      }
    }

    // vt_handle_char. Returns whether the character is put on the screen.
    method HandleChar(c: nat) returns (echo: bool)
      requires Valid()
      modifies this, buf
      ensures Valid() && Value() == Typed(old(Value()), c) && top == old(top)
      ensures echo <==> c != BACKSPACE && c != RETURN && c != NEWLINE
      ensures Drawn(old(buf[..]), buf[..], old(tail), tail, old(cursor), c, echo)
    {
      hide Rows, Blank, Dist, NextRow, Add;
      echo := false;
      RowOf(head, cursor);
      ghost var k, b := Dist(cursor, head), buf[..];
      if c == BACKSPACE {
        BackPlace(head, tail, cursor);
        if cursor != head {
          cursor := Add(cursor, -1);
        }
      } else if c == RETURN {
        ReturnPlace(head, tail, cursor);
        cursor := cursor / WIDTH * WIDTH;
      } else if c == NEWLINE {
        NextInRows(head, tail, cursor);
        LastRow(head, tail, cursor);
        HandleTail(NextRow(cursor), (k / WIDTH + 1) * WIDTH);
      } else {
        RowsSet(buf[..], head, Dist(tail, head), k, c);
        CursorIs(cursor, head);
        LastRow(head, tail, cursor);
        buf[cursor] := c;
        assert buf[..] == b[cursor := c];
        echo := true;
        HandleTail(Add(cursor, 1), k + 1);
      }
    }
  }

  lemma CursorIs(cursor: nat, head: nat)
    requires cursor < BUFFER && head < BUFFER
    ensures (head + Dist(cursor, head)) % BUFFER == cursor
  {
  }

  lemma HeadPlace(head: nat, tail: nat, to: nat, newTail: nat)
    requires Placed(head, tail, head, 0) && to == tail && newTail == NextRow(tail)
    ensures var h := if Dist(tail, head) + WIDTH == BUFFER then NextRow(newTail) else head;
            && h < BUFFER && h % WIDTH == 0 && h != newTail
            && Dist(to, h) == (if Dist(tail, head) + WIDTH == BUFFER then Dist(tail, head) - WIDTH
                               else Dist(tail, head))
            && Dist(newTail, h) == (if Dist(tail, head) + WIDTH == BUFFER then Dist(tail, head)
                                    else Dist(tail, head) + WIDTH)
  {
    TailMoves(head, tail);
    NextRowIs(tail);
    NextRowIs(newTail);
    DistIs(tail, head);
    DistIs(to, NextRow(newTail));
    DistIs(newTail, NextRow(newTail));
    hide Dist, NextRow;
  }

  lemma CursorPlace(head: nat, tail: nat, to: nat, next: nat)
    requires head < BUFFER && tail < BUFFER && next < Dist(tail, head) && to == (head + next) % BUFFER
    ensures Dist(to, head) == next
  {
    Around(head + next);
    DistIs(to, head);
  }

  lemma BackPlace(head: nat, tail: nat, cursor: nat)
    requires Placed(head, tail, cursor, 0)
    ensures cursor == head <==> Dist(cursor, head) == 0
    ensures cursor != head ==> Dist(Add(cursor, -1), head) == Dist(cursor, head) - 1
  {
    DistIs(cursor, head);
    Around(cursor - 1 + BUFFER);
    DistIs(Add(cursor, -1), head);
  }

  lemma ReturnPlace(head: nat, tail: nat, cursor: nat)
    requires Placed(head, tail, cursor, 0)
    ensures var k := Dist(cursor, head);
            && cursor / WIDTH * WIDTH < BUFFER
            && Dist(cursor / WIDTH * WIDTH, head) == k / WIDTH * WIDTH < Dist(tail, head)
  {
    RowOf(head, cursor);
    var k := Dist(cursor, head);
    RowStart(k);
    RowStart(cursor);
    CursorPlace(head, tail, cursor / WIDTH * WIDTH, k / WIDTH * WIDTH);
  }

  lemma NextInRows(head: nat, tail: nat, cursor: nat)
    requires Placed(head, tail, cursor, 0)
    ensures var k := Dist(cursor, head); k < (k / WIDTH + 1) * WIDTH <= Dist(tail, head)
  {
    TailMoves(head, tail);
    var k, n := Dist(cursor, head), Dist(tail, head);
    RowStart(k);
    hide Dist;
    RowFits(k, n);
  }

  lemma LastRow(head: nat, tail: nat, cursor: nat)
    requires Placed(head, tail, cursor, 0)
    ensures var k, n := Dist(cursor, head), Dist(tail, head);
            && ((k / WIDTH + 1) * WIDTH == n || k + 1 == n ==> Dist(tail, cursor) <= WIDTH) && NextRow(tail) != tail
  {
    var k, n := Dist(cursor, head), Dist(tail, head);
    NextRowIs(tail);
    RowStart(k);
    DistIs(cursor, head);
    DistIs(tail, head);
    DistIs(tail, cursor);
    hide Dist, NextRow;
  }

  lemma RowFits(k: nat, n: nat)
    requires n % WIDTH == 0 && k < n
    ensures k - k % WIDTH + WIDTH <= n
  {
  }

  // ---------- the screen ----------

  ghost predicate Shows(screen: seq<nat>, b: seq<nat>, top: nat, tail: nat)
    requires |b| == BUFFER && top < BUFFER && tail < BUFFER
  {
    |screen| == DISPLAY && forall k :: 0 <= k < DISPLAY ==> screen[k] == Shown(b, top, tail, k)
  }

  // vt_redraw: every cell is what it should be, in each case of the copying.
  method Redraw(t: Terminal, screen: array<nat>)
    requires t.Valid() && screen.Length == DISPLAY && screen != t.buf
    modifies screen
    ensures Shows(screen[..], t.buf[..], t.top, t.tail)
  {
    var top, tail, buf := t.top, t.tail, t.buf;
    DistIs(tail, top);
    Clear(screen, 0, DISPLAY);
    if top <= tail {
      if tail - top <= DISPLAY {
        Copy(screen, 0, buf, top, tail - top);
      } else {
        Copy(screen, 0, buf, top, DISPLAY);
      }
    } else {
      var first := BUFFER - top;
      if first >= DISPLAY {
        Copy(screen, 0, buf, top, DISPLAY);
      } else {
        Copy(screen, 0, buf, top, first);
        if first + tail <= DISPLAY {
          Copy(screen, first, buf, 0, tail);
        } else {
          Copy(screen, first, buf, 0, DISPLAY - first);
        }
      }
    }
    forall k | 0 <= k < DISPLAY ensures screen[..][k] == Shown(buf[..], top, tail, k) {
      Around(top + k);
    }
  }

  // The character that is put on the screen instead of redrawing all of it.
  ghost function Patched(screen: seq<nat>, b: seq<nat>, cursor: nat, top: nat, c: nat, echo: bool): seq<nat>
    requires |screen| == DISPLAY && cursor < BUFFER && top < BUFFER && Dist(cursor, top) < DISPLAY
  {
    if echo then screen[Dist(cursor, top) := c] else screen
  }

  // Where putting one character is as good as redrawing: the cursor is above the tail on
  // the screen, or there is nothing to see of the character.
  ghost predicate InSight(cursor: nat, top: nat, tail: nat, c: nat, echo: bool)
    requires cursor < BUFFER && top < BUFFER && tail < BUFFER
  {
    !echo || c == 0 || Dist(cursor, top) < Dist(tail, top)
  }

  lemma PatchedCell(b: seq<nat>, b': seq<nat>, tail: nat, tail': nat, cursor: nat, c: nat, echo: bool, top: nat, k: nat)
    requires |b| == BUFFER && tail < BUFFER && tail' < BUFFER && cursor < BUFFER && top < BUFFER && |b'| == BUFFER
    requires tail % WIDTH == 0
    requires Drawn(b, b', tail, tail', cursor, c, echo) && Dist(cursor, top) < DISPLAY && k < DISPLAY && cursor != tail
    ensures Shown(b', top, tail', k) ==
            if echo && k == Dist(cursor, top) then (if k < Dist(tail, top) then c else 0) else Shown(b, top, tail, k)
  {
    DistIs(cursor, top);
    DistIs(tail, top);
    DistIs(tail', top);
    DistIs(tail, cursor);
    NextRowIs(tail);
    Around(top + k);
    var p := (top + k) % BUFFER;
    DistIs(p, tail);
    hide Dist, NextRow;
  }

  // Putting the character on a screen that shows the terminal gives a screen that does so
  // exactly if the character is in sight.
  lemma PatchedShows(screen: seq<nat>, b: seq<nat>, b': seq<nat>, tail: nat, tail': nat, cursor: nat, c: nat,
                     echo: bool, top: nat)
    requires |b| == BUFFER && tail < BUFFER && tail' < BUFFER && cursor < BUFFER && top < BUFFER && |b'| == BUFFER
    requires tail % WIDTH == 0
    requires Drawn(b, b', tail, tail', cursor, c, echo) && Dist(cursor, top) < DISPLAY && cursor != tail
    requires Shows(screen, b, top, tail)
    ensures Shows(Patched(screen, b, cursor, top, c, echo), b', top, tail') <==> InSight(cursor, top, tail, c, echo)
  {
    hide Dist, Shown, Drawn;
    var s, r := Patched(screen, b, cursor, top, c, echo), Dist(cursor, top);
    forall k: nat | k < DISPLAY
      ensures Shown(b', top, tail', k) ==
              if echo && k == Dist(cursor, top) then (if k < Dist(tail, top) then c else 0) else Shown(b, top, tail, k)
    {
      PatchedCell(b, b', tail, tail', cursor, c, echo, top, k);
    }
    assert echo ==> s[r] == c;
  }

  lemma NewTop(cursor: nat)
    requires cursor < BUFFER
    ensures Dist(cursor, Add(NextRow(cursor), -DISPLAY)) < DISPLAY
  {
    RowStart(cursor);
    var x := NextRow(cursor);
    Around(cursor - cursor % WIDTH + WIDTH);
    Around(x - DISPLAY + BUFFER);
    DistIs(cursor, Add(x, -DISPLAY));
  }

  // vt_provide_char on the terminal that is on the screen. Does the screen show the
  // terminal again? It does if the rows were moved up, or else if the character is in sight.
  method ProvideChar(t: Terminal, screen: array<nat>, c: nat)
    requires t.Valid() && screen.Length == DISPLAY && screen != t.buf && Shows(screen[..], t.buf[..], t.top, t.tail)
    modifies t, t.buf, screen
    ensures t.Valid() && t.Value() == Typed(old(t.Value()), c)
    ensures t.top == if Dist(old(t.cursor), old(t.top)) < DISPLAY then old(t.top)
            else Add(NextRow(old(t.cursor)), -DISPLAY)
    ensures Shows(screen[..], t.buf[..], t.top, t.tail) <==>
              t.top != old(t.top) || InSight(old(t.cursor), old(t.top), old(t.tail), c, c != BACKSPACE && c != RETURN
                                             && c != NEWLINE)
  {
    hide Dist, NextRow, Add, Rows, Shown, Drawn, Shows, InSight, Typed;
    var oldCursor, oldTop := t.cursor, t.top;
    ghost var b, tail, shown := t.buf[..], t.tail, screen[..];
    NewTop(oldCursor);
    CursorNotTail(t.head, t.tail, t.cursor);
    if Dist(t.cursor, t.top) >= DISPLAY {
      t.top := NextRow(t.cursor);
      t.top := Add(t.top, -DISPLAY);
    }
    var echo := t.HandleChar(c);
    if oldTop == t.top {
      PatchedShows(shown, b, t.buf[..], tail, t.tail, oldCursor, c, echo, oldTop);
      if echo {
        var rel := Dist(oldCursor, t.top);
        RowStart(rel);
        screen[rel / WIDTH * WIDTH + rel % WIDTH] := c;
        assert screen[..] == shown[rel := c];
      }
    } else {
      Redraw(t, screen);
    }
  }

  lemma CursorNotTail(head: nat, tail: nat, cursor: nat)
    requires Placed(head, tail, cursor, 0)
    ensures cursor != tail
  {
  }

  // vt_scroll. Up, the screen goes as many rows up as there are; down, as many as leave a row
  // of text on it.
  method ScrollBy(t: Terminal, screen: array<nat>, lines: nat, up: bool)
    requires t.Valid() && screen.Length == DISPLAY && screen != t.buf
    modifies t`top, screen
    ensures t.Valid() && t.Value() == old(t.Value()) && Shows(screen[..], t.buf[..], t.top, t.tail)
    ensures var n := lines * WIDTH;
            if up then Dist(t.top, t.head) == if Dist(old(t.top), t.head) < n then 0 else Dist(old(t.top), t.head) - n
            else Dist(t.tail, t.top) == if Dist(t.tail, old(t.top)) < n + WIDTH then WIDTH
                else Dist(t.tail, old(t.top)) - n
  {
    hide Dist, Add, Rows, Shown, Shows;
    Nearer(t.top, t.head, t.tail, lines * WIDTH);
    if up {
      if Dist(t.top, t.head) < lines * WIDTH {
        t.top := t.head;
      } else {
        t.top := Add(t.top, 0 - lines * WIDTH);
      }
    } else if Dist(t.tail, t.top) < (lines + 1) * WIDTH {
      t.top := Add(t.tail, -WIDTH);
    } else {
      t.top := Add(t.top, lines * WIDTH);
    }
    Redraw(t, screen);
  }

  // Moving by n, back towards the head or on towards the tail.
  lemma Nearer(top: nat, head: nat, tail: nat, n: nat)
    requires top < BUFFER && head < BUFFER && tail < BUFFER
    ensures Dist(head, head) == 0 && Dist(tail, Add(tail, -WIDTH)) == WIDTH
    ensures n <= Dist(top, head) ==> Dist(Add(top, 0 - n), head) == Dist(top, head) - n
    ensures n <= Dist(tail, top) ==> Dist(tail, Add(top, n)) == Dist(tail, top) - n
  {
    DistIs(head, head);
    DistIs(top, head);
    DistIs(tail, top);
    LastRowStart(tail);
    if n <= Dist(top, head) { MovedBack(top, head, n); }
    if n <= Dist(tail, top) { MovedOn(tail, top, n); }
  }

  lemma LastRowStart(tail: nat)
    requires tail < BUFFER
    ensures Dist(tail, Add(tail, -WIDTH)) == WIDTH
  {
    Around(tail - WIDTH + BUFFER);
    DistIs(tail, Add(tail, -WIDTH));
  }

  lemma MovedBack(top: nat, head: nat, n: nat)
    requires top < BUFFER && head < BUFFER && n <= Dist(top, head)
    ensures Dist(Add(top, 0 - n), head) == Dist(top, head) - n
  {
    hide Dist;
    DistIs(top, head);
    Around(top - n + BUFFER);
    DistIs(Add(top, 0 - n), head);
  }

  lemma MovedOn(tail: nat, top: nat, n: nat)
    requires top < BUFFER && tail < BUFFER && n <= Dist(tail, top)
    ensures Dist(tail, Add(top, n)) == Dist(tail, top) - n
  {
    hide Dist;
    DistIs(tail, top);
    SameAround(top + n);
    DistIs(tail, Add(top, n));
  }

  lemma SameAround(x: nat)
    requires x < 2 * BUFFER
    ensures (x + BUFFER) % BUFFER == if x < BUFFER then x else x - BUFFER
  {
  }

  // A full buffer with the cursor at its start and the last row on top of the screen.
  lemma OutOfSight(head: nat, tail: nat, top: nat)
    requires Placed(head, tail, head, top) && Dist(tail, head) == BUFFER - WIDTH && Dist(tail, top) == WIDTH
    ensures Dist(head, top) < DISPLAY && !InSight(head, top, tail, 65, true)
  {
    DistIs(tail, head);
    DistIs(tail, top);
    DistIs(head, top);
  }

  // A terminal gets there: the buffer is filled with rows, the cursor backspaced to its start
  // and the screen scrolled down. The next character is drawn below the end of the text.
  method DrawnPastEnd() returns (t: Terminal, screen: array<nat>)
    ensures t.Valid() && screen.Length == DISPLAY && !Shows(screen[..], t.buf[..], t.top, t.tail)
  {
    hide Dist, Rows, Shown, Shows;
    t := new Terminal();
    screen := new nat[DISPLAY];
    Redraw(t, screen);
    for i := 1 to BUFFER / WIDTH - 1
      invariant t.Valid() && fresh(t) && fresh(t.buf) && fresh(screen) && screen.Length == DISPLAY && screen != t.buf
      invariant Shows(screen[..], t.buf[..], t.top, t.tail)
      invariant |t.Value().text| == i * WIDTH && t.Value().cursor == i * WIDTH - WIDTH
    {
      ProvideChar(t, screen, NEWLINE);
    }
    for i := 0 to BUFFER - 2 * WIDTH
      invariant t.Valid() && fresh(t) && fresh(t.buf) && fresh(screen) && screen.Length == DISPLAY && screen != t.buf
      invariant Shows(screen[..], t.buf[..], t.top, t.tail)
      invariant |t.Value().text| == BUFFER - WIDTH && t.Value().cursor == BUFFER - 2 * WIDTH - i
    {
      ProvideChar(t, screen, BACKSPACE);
    }
    ScrollBy(t, screen, BUFFER / WIDTH, false);
    FullRows(t);
    OutOfSight(t.head, t.tail, t.top);
    ProvideChar(t, screen, 65);
  }

  lemma FullRows(t: Terminal)
    requires t.Valid()
    ensures Dist(t.tail, t.head) == |t.Value().text| && (t.Value().cursor == 0 ==> t.cursor == t.head)
  {
    DistIs(t.cursor, t.head);
  }
}
