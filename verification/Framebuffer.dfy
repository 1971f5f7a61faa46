/** The framebuffer and its shadow (drivers/video/fb/fb.c and fb_text.c): drawing goes to
    the shadow and marks rows, and a flush ships the marked rows.  The pitch is taken to
    hold a whole row of pixels. */
module Framebuffer {
  import opened MachineInts

  type Pixels = seq<U32>

  // ---- Rows of a flat buffer ----------------------------------------------------------------------

  /** Row `r` of a buffer with `w` words to a row. */
  function Row(buf: Pixels, w: nat, r: nat): (row: Pixels)
    requires (r + 1) * w <= |buf|
    ensures |row| == w && forall k | 0 <= k < w :: row[k] == buf[r * w + k]
  {
    assert r * w + w == (r + 1) * w;
    buf[r * w..r * w + w]
  }

  lemma RowsApart(r: nat, s: nat, w: nat)
    requires r < s
    ensures r * w + w <= s * w
  {
    assert (s - r - 1) * w >= 0;
    assert s * w == r * w + w + (s - r - 1) * w;
  }

  lemma RowFits(r: nat, h: nat, w: nat)
    requires r < h
    ensures (r + 1) * w <= h * w && r * w + w == (r + 1) * w
  {
    RowsApart(r, h, w);
  }

  /** Where row `r` lies relative to rows `y` to `y + n`. */
  lemma RowAndRows(r: nat, y: nat, n: nat, h: nat, w: nat)
    requires r < h && y + n <= h
    ensures y * w + n * w == (y + n) * w <= h * w && (r + 1) * w <= h * w && r * w + w == (r + 1) * w
    ensures r < y ==> r * w + w <= y * w
    ensures y <= r < y + n ==> y * w <= r * w && r * w + w <= (y + n) * w
    ensures y + n <= r ==> (y + n) * w <= r * w
  {
    RowFits(r, h, w);
    RowsFull(y + n, h, w);
    if r < y {
      RowsApart(r, y, w);
    } else {
      RowsFull(y, r, w);
      if r < y + n {
        RowsApart(r, y + n, w);
      } else {
        RowsFull(y + n, r, w);
      }
    }
  }

  lemma RowsFull(h: nat, r: nat, w: nat)
    requires h <= r
    ensures h * w <= r * w
  {
    if h < r {
      RowsApart(h, r, w);
    }
  }

  /** `n` words from `at` on set to one colour. */
  function Fill(buf: Pixels, at: nat, n: nat, c: U32): (b: Pixels)
    requires at + n <= |buf|
    ensures |b| == |buf| && forall i | 0 <= i < |buf| :: b[i] == if at <= i < at + n then c else buf[i]
  {
    seq(|buf|, i requires 0 <= i < |buf| => if at <= i < at + n then c else buf[i])
  }

  /** A fill inside row `y` changes that row only. */
  lemma FillInRow(buf: Pixels, w: nat, h: nat, y: nat, x: nat, n: nat, c: U32, r: nat)
    requires |buf| == h * w && y < h && r < h && x + n <= w
    ensures y * w + x + n <= |buf| && (r + 1) * w <= |buf|
    ensures Row(Fill(buf, y * w + x, n, c), w, r) == if r == y then Fill(Row(buf, w, r), x, n, c) else Row(buf, w, r)
  {
    RowFits(y, h, w);
    RowFits(r, h, w);
    if r < y {
      RowsApart(r, y, w);
    } else if y < r {
      RowsApart(y, r, w);
    }
  }

  /** A fill of whole rows fills each of them. */
  lemma FillWholeRows(buf: Pixels, w: nat, h: nat, y: nat, n: nat, c: U32, r: nat)
    requires |buf| == h * w && y + n <= h && r < h
    ensures y * w + n * w <= |buf| && (r + 1) * w <= |buf|
    ensures Row(Fill(buf, y * w, n * w, c), w, r) == if y <= r < y + n then Fill(Row(buf, w, r), 0, w, c) else Row(buf, w, r)
  {
    RowAndRows(r, y, n, h, w);
  }

  /** Buffers with the same rows are the same. */
  lemma SameRows(a: Pixels, b: Pixels, w: nat, h: nat)
    requires |a| == |b| == h * w && w > 0
    requires forall r | 0 <= r < h :: RowsAgree(a, b, w, r)
    ensures a == b
  {
    forall i | 0 <= i < |a| ensures a[i] == b[i] {
      var r := i / w;
      assert i == r * w + i % w;
      if r >= h {
        RowsFull(h, r, w);
      }
      assert RowsAgree(a, b, w, r);
      assert Row(a, w, r)[i % w] == Row(b, w, r)[i % w];
    }
  }

  ghost predicate RowsAgree(a: Pixels, b: Pixels, w: nat, r: nat) {
    (r + 1) * w <= |a| && (r + 1) * w <= |b| && Row(a, w, r) == Row(b, w, r)
  }

  function Min(a: nat, b: nat): nat {
    if a < b then a else b
  }

  /** Row `r` of `now` is row `r` of `was` with the rectangle drawn over it. */
  ghost predicate RowDrawn(was: Pixels, now: Pixels, w: nat, r: nat, x: nat, y: nat, width: nat, height: nat, c: U32)
    requires x + width <= w
  {
    && (r + 1) * w <= |was| && (r + 1) * w <= |now|
    && Row(now, w, r) == if y <= r < y + height then Fill(Row(was, w, r), x, width, c) else Row(was, w, r)
  }

  /** `now` is `was` with a rectangle of one colour drawn over it. */
  ghost predicate Drawn(was: Pixels, now: Pixels, w: nat, h: nat, x: nat, y: nat, width: nat, height: nat, c: U32)
    requires x + width <= w
  {
    |now| == |was| == h * w && forall r | 0 <= r < h :: RowDrawn(was, now, w, r, x, y, width, height, c)
  }

  // ---- Marked rows ----------------------------------------------------------------------------------

  /** The shadow and what is known about it; `lo` and `hi` bound the marked rows. */
  datatype Shadow = Shadow(pixels: Pixels, dirty: seq<bool>, lo: nat, hi: nat)

  /** Row `r` agrees with the framebuffer or is marked. */
  ghost predicate RowTracked(s: Shadow, front: Pixels, w: nat, r: nat) {
    RowsAgree(s.pixels, front, w, r) || (r < |s.dirty| && s.dirty[r])
  }

  ghost predicate EnvelopeOk(s: Shadow, h: nat) {
    |s.dirty| == h && s.hi < h && forall r | 0 <= r < h && s.dirty[r] :: s.lo <= r <= s.hi
  }

  /** Every row where the two buffers differ is marked, and every marked row is inside the
      envelope. */
  ghost predicate Tracked(s: Shadow, front: Pixels, w: nat, h: nat) {
    |s.pixels| == |front| == h * w && EnvelopeOk(s, h) && forall r | 0 <= r < h :: RowTracked(s, front, w, r)
  }

  function Marked(dirty: seq<bool>, y0: nat, y1: nat): (d: seq<bool>)
    ensures |d| == |dirty| && forall i | 0 <= i < |dirty| :: d[i] == (dirty[i] || y0 <= i < y1)
  {
    seq(|dirty|, i requires 0 <= i < |dirty| => dirty[i] || y0 <= i < y1)
  }

  /** `fb_mark_dirty_rows`. */
  function Mark(s: Shadow, h: nat, y0: nat, y1: nat): Shadow {
    var end := Min(y1, h);
    if y0 >= h || end <= y0 then s
    else s.(dirty := Marked(s.dirty, y0, end), lo := Min(y0, s.lo), hi := if end - 1 > s.hi then end - 1 else s.hi)
  }

  /** Drawing in some rows and marking them keeps track. */
  lemma DrawAndMark(s: Shadow, front: Pixels, w: nat, h: nat, now: Pixels, x: nat, y: nat, width: nat, height: nat, c: U32)
    requires Tracked(s, front, w, h) && x + width <= w && Drawn(s.pixels, now, w, h, x, y, width, height, c)
    ensures Tracked(Mark(s.(pixels := now), h, y, y + height), front, w, h)
  {
    var t := Mark(s.(pixels := now), h, y, y + height);
    forall r | 0 <= r < h ensures RowTracked(t, front, w, r) {
      assert RowTracked(s, front, w, r);
      assert RowDrawn(s.pixels, now, w, r, x, y, width, height, c);
    }
  }

  /** The row that word `i` lies in. */
  lemma RowOfWord(w: nat, h: nat, y: nat, x: nat, i: nat)
    requires w > 0 && i == y * w + x && i < h * w && x >= w
    ensures y < i / w < h && i == (i / w) * w + i % w && i % w < w
  {
    var r := i / w;
    assert i == r * w + i % w;
    if r <= y {
      RowsFull(r, y, w);
    }
    if r >= h {
      RowsFull(h, r, w);
    }
  }

  lemma WordChanges(pixels: Pixels, front: Pixels, w: nat, h: nat, r: nat, k: nat, c: U32)
    requires |pixels| == |front| == h * w && r < h && k < w && r * w + k < |pixels| && pixels[r * w + k] != c
    requires RowsAgree(pixels, front, w, r)
    ensures !RowsAgree(Fill(pixels, r * w + k, 1, c), front, w, r)
  {
    RowFits(r, h, w);
    assert Row(pixels, w, r)[k] == Row(front, w, r)[k];
    assert Row(Fill(pixels, r * w + k, 1, c), w, r)[k] == c;
  }

  /** The shadow after one pixel is drawn and its row marked. */
  function PixelDrawn(s: Shadow, w: nat, h: nat, x: nat, y: nat, c: U32): Shadow
    requires y * w + x < |s.pixels|
  {
    Mark(s.(pixels := Fill(s.pixels, y * w + x, 1, c)), h, y, y + 1)
  }

  lemma PixelInRow(s: Shadow, front: Pixels, w: nat, h: nat, x: nat, y: nat, c: U32)
    requires Tracked(s, front, w, h) && x < w && y < h && y * w + x < |s.pixels|
    ensures Tracked(PixelDrawn(s, w, h, x, y, c), front, w, h)
  {
    var now := Fill(s.pixels, y * w + x, 1, c);
    NothingDrawn(s.pixels, w, h, x, y, 1, c);
    OneMoreRow(s.pixels, s.pixels, now, w, h, x, y, 1, 0, c);
    DrawAndMark(s, front, w, h, now, x, y, 1, 1, c);
  }

  lemma PixelPastRow(s: Shadow, front: Pixels, w: nat, h: nat, x: nat, y: nat, c: U32)
    requires Tracked(s, front, w, h) && (forall r | 0 <= r < h :: !s.dirty[r]) && 0 < w <= x && y < h
    requires y * w + x < |s.pixels| && s.pixels[y * w + x] != c
    ensures !Tracked(PixelDrawn(s, w, h, x, y, c), front, w, h)
  {
    var i := y * w + x;
    RowOfWord(w, h, y, x, i);
    assert RowTracked(s, front, w, i / w);
    WordChanges(s.pixels, front, w, h, i / w, i % w, c);
    assert !RowTracked(PixelDrawn(s, w, h, x, y, c), front, w, i / w);
  }

  /** Without a pitch that holds a whole row of pixels tracking fails: drawing one pixel in
      a new colour on a clean shadow keeps track exactly when it lies inside its own row. */
  lemma PixelNeedsPitch(s: Shadow, front: Pixels, w: nat, h: nat, x: nat, y: nat, c: U32)
    requires Tracked(s, front, w, h) && (forall r | 0 <= r < h :: !s.dirty[r]) && w > 0 && y < h
    requires y * w + x < |s.pixels| && s.pixels[y * w + x] != c
    ensures Tracked(PixelDrawn(s, w, h, x, y, c), front, w, h) <==> x < w
  {
    if x < w {
      PixelInRow(s, front, w, h, x, y, c);
    } else {
      PixelPastRow(s, front, w, h, x, y, c);
    }
  }

  /** Whatever is drawn, marking every row keeps track. */
  lemma MarkAll(s: Shadow, front: Pixels, w: nat, h: nat, now: Pixels)
    requires EnvelopeOk(s, h) && |now| == |front| == h * w && h > 0
    ensures Tracked(Mark(s.(pixels := now), h, 0, h), front, w, h)
  {
    var t := Mark(s.(pixels := now), h, 0, h);
    forall r | 0 <= r < h ensures RowTracked(t, front, w, r) {
      assert t.dirty[r];
    }
  }

  // ---- Drawing --------------------------------------------------------------------------------------

  /** The row-by-row fill. */
  method FillByRows(was: Pixels, w: nat, h: nat, x: nat, y: nat, width: nat, height: nat, c: U32) returns (now: Pixels)
    requires |was| == h * w && x + width <= w && y + height <= h
    ensures Drawn(was, now, w, h, x, y, width, height, c)
  {
    now := was;
    NothingDrawn(was, w, h, x, y, width, c);
    for row := 0 to height
      invariant Drawn(was, now, w, h, x, y, width, row, c)
    {
      ghost var before := now;
      FillInRow(now, w, h, y + row, x, width, c, y + row);
      now := Fill(now, (y + row) * w + x, width, c);
      OneMoreRow(was, before, now, w, h, x, y, width, row, c);
    }
  }

  lemma NothingDrawn(was: Pixels, w: nat, h: nat, x: nat, y: nat, width: nat, c: U32)
    requires |was| == h * w && x + width <= w
    ensures Drawn(was, was, w, h, x, y, width, 0, c)
  {
    forall r | 0 <= r < h ensures RowDrawn(was, was, w, r, x, y, width, 0, c) {
      RowFits(r, h, w);
    }
  }

  lemma OneMoreRow(was: Pixels, before: Pixels, now: Pixels, w: nat, h: nat, x: nat, y: nat, width: nat, row: nat, c: U32)
    requires x + width <= w && y + row < h && Drawn(was, before, w, h, x, y, width, row, c)
    requires (y + row) * w + x + width <= |before| && now == Fill(before, (y + row) * w + x, width, c)
    ensures Drawn(was, now, w, h, x, y, width, row + 1, c)
  {
    var rows := row + 1;
    forall r | 0 <= r < h ensures RowDrawn(was, now, w, r, x, y, width, rows, c) {
      assert RowDrawn(was, before, w, r, x, y, width, row, c);
      FillInRow(before, w, h, y + row, x, width, c, r);
    }
  }

  /** The single fill over whole rows draws the same picture. */
  lemma FastFillIsDrawn(was: Pixels, w: nat, h: nat, y: nat, height: nat, c: U32)
    requires |was| == h * w && y + height <= h
    ensures y * w + height * w <= |was| && Drawn(was, Fill(was, y * w, height * w, c), w, h, 0, y, w, height, c)
  {
    if h > 0 {
      FillWholeRows(was, w, h, y, height, c, 0);
    }
    var now := Fill(was, y * w, height * w, c);
    forall r | 0 <= r < h ensures RowDrawn(was, now, w, r, 0, y, w, height, c) {
      FillWholeRows(was, w, h, y, height, c, r);
    }
  }

  /** Pictures drawn the same are the same: the fast path gives the very buffer the
      row-by-row fill gives. */
  lemma DrawnIsUnique(was: Pixels, a: Pixels, b: Pixels, w: nat, h: nat, x: nat, y: nat, width: nat, height: nat, c: U32)
    requires w > 0 && x + width <= w && Drawn(was, a, w, h, x, y, width, height, c) && Drawn(was, b, w, h, x, y, width, height, c)
    ensures a == b
  {
    forall r | 0 <= r < h ensures RowsAgree(a, b, w, r) {
      assert RowDrawn(was, a, w, r, x, y, width, height, c) && RowDrawn(was, b, w, r, x, y, width, height, c);
    }
    SameRows(a, b, w, h);
  }

  // ---- Scrolling --------------------------------------------------------------------------------------

  /** The first `n` words replaced by those `d` further on. */
  function MoveUp(buf: Pixels, d: nat, n: nat): (b: Pixels)
    requires d + n <= |buf|
    ensures |b| == |buf| && forall i | 0 <= i < |buf| :: b[i] == if i < n then buf[i + d] else buf[i]
  {
    seq(|buf|, i requires 0 <= i < |buf| && d + n <= |buf| => if i < n then buf[i + d] else buf[i])
  }

  ghost predicate RowScrolled(was: Pixels, now: Pixels, w: nat, h: nat, shift: nat, r: nat) {
    && (r + 1) * w <= |now| && (r + 1) * w <= |was| && (r + shift < h ==> (r + shift + 1) * w <= |was|)
    && Row(now, w, r) == if r + shift < h then Row(was, w, r + shift) else Row(was, w, r)
  }

  lemma MoveUpScrolls(was: Pixels, w: nat, h: nat, shift: nat, r: nat)
    requires |was| == h * w && shift <= h && r < h
    ensures shift * w + (h - shift) * w <= |was| && RowScrolled(was, MoveUp(was, shift * w, (h - shift) * w), w, h, shift, r)
  {
    assert shift * w + (h - shift) * w == h * w;
    RowFits(r, h, w);
    if r + shift < h {
      RowFits(r + shift, h, w);
      RowFits(r, h - shift, w);
      assert (r + shift) * w == r * w + shift * w;
    } else {
      RowsFull(h - shift, r, w);
    }
  }

  // ---- Flushing -----------------------------------------------------------------------------------------

  function CopyWords(dst: Pixels, src: Pixels, at: nat, n: nat): (b: Pixels)
    requires |src| == |dst| && at + n <= |dst|
    ensures |b| == |dst| && forall i | 0 <= i < |dst| :: b[i] == if at <= i < at + n then src[i] else dst[i]
  {
    seq(|dst|, i requires 0 <= i < |dst| && |src| == |dst| => if at <= i < at + n then src[i] else dst[i])
  }

  /** Copying whole rows makes them agree and leaves the others. */
  lemma CopyRows(dst: Pixels, src: Pixels, w: nat, h: nat, y: nat, n: nat, r: nat)
    requires |src| == |dst| == h * w && y + n <= h && r < h
    ensures y * w + n * w <= |dst| && (r + 1) * w <= |dst|
    ensures Row(CopyWords(dst, src, y * w, n * w), w, r) == if y <= r < y + n then Row(src, w, r) else Row(dst, w, r)
  {
    RowAndRows(r, y, n, h, w);
  }

  /** Tracked but for the rows from `y` to `end`, whose marks have been taken off. */
  ghost predicate TrackedBut(s: Shadow, front: Pixels, w: nat, h: nat, y: nat, end: nat) {
    |s.pixels| == |front| == h * w && |s.dirty| == h && forall r | 0 <= r < h && !(y <= r < end) :: RowTracked(s, front, w, r)
  }

  ghost predicate MarksWithin(s: Shadow, y: nat, hi: nat) {
    forall r | 0 <= r < |s.dirty| && s.dirty[r] :: y <= r <= hi
  }

  /** The inner loop: takes the marks off a run of marked rows. */
  method TakeRun(s: Shadow, ghost front: Pixels, ghost w: nat, h: nat, y: nat, hi: nat) returns (t: Shadow, end: nat)
    requires TrackedBut(s, front, w, h, y, y) && MarksWithin(s, y, hi) && y <= hi < h && s.dirty[y]
    ensures y < end <= hi + 1 && t.pixels == s.pixels && TrackedBut(t, front, w, h, y, end) && MarksWithin(t, end, hi)
  {
    t, end := s, y;
    while end <= hi && t.dirty[end]
      invariant y <= end <= hi + 1 && t.pixels == s.pixels
      invariant TrackedBut(t, front, w, h, y, end) && MarksWithin(t, end, hi) && (end == y ==> t.dirty[y])
    {
      ghost var was := t;
      t := t.(dirty := t.dirty[end := false]);
      forall r | 0 <= r < h && !(y <= r < end + 1) ensures RowTracked(t, front, w, r) {
        assert RowTracked(was, front, w, r);
      }
      end := end + 1;
    }
  }

  lemma RunShipped(s: Shadow, front: Pixels, w: nat, h: nat, y: nat, end: nat)
    requires TrackedBut(s, front, w, h, y, end) && y <= end <= h && y < h
    ensures y * w + (end - y) * w <= |front|
    ensures TrackedBut(s, CopyWords(front, s.pixels, y * w, (end - y) * w), w, h, end, end)
  {
    CopyRows(front, s.pixels, w, h, y, end - y, y);
    var now := CopyWords(front, s.pixels, y * w, (end - y) * w);
    forall r | 0 <= r < h ensures RowTracked(s, now, w, r) {
      CopyRows(front, s.pixels, w, h, y, end - y, r);
      if !(y <= r < end) {
        assert RowTracked(s, front, w, r);
      }
    }
  }

  /** The loops of `fb_flush`: afterwards the buffers are equal and nothing is marked. */
  method Ship(s: Shadow, front: Pixels, w: nat, h: nat) returns (t: Shadow, now: Pixels)
    requires Tracked(s, front, w, h) && w > 0 && h > 0
    ensures now == t.pixels == s.pixels && Tracked(t, now, w, h) && t.lo == h && t.hi == 0
    ensures forall r | 0 <= r < h :: !t.dirty[r]
  {
    t, now := s, front;
    if s.lo <= s.hi {
      var y := s.lo;
      while y <= s.hi
        invariant y <= s.hi + 1 && t.pixels == s.pixels && TrackedBut(t, now, w, h, y, y) && MarksWithin(t, y, s.hi)
      {
        if !t.dirty[y] {
          y := y + 1;
          continue;
        }
        var start := y;
        t, y := TakeRun(t, now, w, h, y, s.hi);
        RunShipped(t, now, w, h, start, y);
        now := CopyWords(now, t.pixels, start * w, (y - start) * w);
      }
    }
    forall r | 0 <= r < h ensures !t.dirty[r] && RowsAgree(t.pixels, now, w, r) {
      assert RowTracked(t, now, w, r);
    }
    SameRows(t.pixels, now, w, h);
    t := t.(lo := h, hi := 0);
  }

  // ---- The device -----------------------------------------------------------------------------------------

  class Framebuffer {
    const width: nat
    const height: nat
    const wpr: nat
    var front: Pixels
    var shadow: Shadow
    var armed: bool

    ghost predicate Valid()
      reads this
    {
      && 0 < width <= wpr && 0 < height && |front| == height * wpr
      && (armed ==> Tracked(shadow, front, wpr, height))
    }

    /** The buffer drawing goes to. */
    function Screen(): Pixels
      reads this
    {
      if armed then shadow.pixels else front
    }

    constructor (width: nat, height: nat, wpr: nat, front: Pixels)
      requires 0 < width <= wpr && 0 < height && |front| == height * wpr
      ensures Valid() && !armed && this.front == front
    {
      this.width, this.height, this.wpr := width, height, wpr;
      this.front := front;
      shadow, armed := Shadow([], [], 0, 0), false;
    }

    /** `fb_enable_shadow`, when memory for it was found. */
    method EnableShadow()
      requires Valid()
      modifies this
      ensures Valid() && armed && front == old(front) && Screen() == old(Screen())
      ensures !old(armed) ==> |shadow.dirty| == height && forall r | 0 <= r < height :: !shadow.dirty[r]
    {
      if !armed {
        shadow := Shadow(front, seq(height, i => false), height, 0);
        armed := true;
        forall r | 0 <= r < height ensures RowTracked(shadow, front, wpr, r) {
          RowFits(r, height, wpr);
        }
      }
    }

    /** Puts a picture with a rectangle drawn over the old one in place, and marks its rows. */
    method Show(now: Pixels, x: nat, y: nat, w: nat, h: nat, c: U32)
      requires Valid() && x + w <= wpr && Drawn(Screen(), now, wpr, height, x, y, w, h, c)
      modifies this
      ensures Valid() && Screen() == now && armed == old(armed) && (armed ==> front == old(front))
    {
      if armed {
        DrawAndMark(shadow, front, wpr, height, now, x, y, w, h, c);
        shadow := Mark(shadow.(pixels := now), height, y, y + h);
      } else {
        front := now;
      }
    }

    /** `fb_fill_rect`: the rectangle is cut to the screen; whole rows take the fast path. */
    method FillRect(x: nat, y: nat, w: nat, h: nat, c: U32)
      requires Valid()
      modifies this
      ensures Valid() && armed == old(armed) && (armed ==> front == old(front))
      ensures if x >= width || y >= height then Screen() == old(Screen())
              else Drawn(old(Screen()), Screen(), wpr, height, x, y, Min(w, width - x), Min(h, height - y), c)
    {
      if x >= width || y >= height {
        return;
      }
      var cw := if x + w > width then width - x else w;
      var ch := if y + h > height then height - y else h;
      if cw == 0 || ch == 0 {
        EmptyRect(Screen(), wpr, height, x, y, cw, ch, c);
        return;
      }
      var now;
      if x == 0 && cw == wpr {
        FastFillIsDrawn(Screen(), wpr, height, y, ch, c);
        now := Fill(Screen(), y * wpr, ch * wpr, c);
      } else {
        now := FillByRows(Screen(), wpr, height, x, y, cw, ch, c);
      }
      Show(now, x, y, cw, ch, c);
    }

    /** `fb_put_pixel`. */
    method PutPixel(x: nat, y: nat, c: U32)
      requires Valid()
      modifies this
      ensures Valid() && armed == old(armed) && (armed ==> front == old(front))
      ensures if x >= width || y >= height then Screen() == old(Screen())
              else Drawn(old(Screen()), Screen(), wpr, height, x, y, 1, 1, c)
    {
      if x >= width || y >= height {
        return;
      }
      ghost var was := Screen();
      NothingDrawn(was, wpr, height, x, y, 1, c);
      FillInRow(was, wpr, height, y, x, 1, c, y);
      var now := Fill(Screen(), y * wpr + x, 1, c);
      OneMoreRow(was, was, now, wpr, height, x, y, 1, 0, c);
      Show(now, x, y, 1, 1, c);
    }

    /** `fb_clear`. */
    method Clear(c: U32)
      requires Valid()
      modifies this
      ensures Valid() && armed == old(armed) && (armed ==> front == old(front))
      ensures |Screen()| == height * wpr && forall i | 0 <= i < |Screen()| :: Screen()[i] == c
    {
      FastFillIsDrawn(Screen(), wpr, height, 0, height, c);
      var now := Fill(Screen(), 0, height * wpr, c);
      Show(now, 0, 0, wpr, height, c);
    }

    /** The copy of `scroll`, with every row marked. */
    method MoveRowsUp(shift: nat)
      requires Valid() && shift < height
      modifies this
      ensures Valid() && armed == old(armed) && (armed ==> front == old(front))
      ensures Scrolled(old(Screen()), Screen(), wpr, height, shift)
    {
      AllScrolled(Screen(), wpr, height, shift);
      var now := MoveUp(Screen(), shift * wpr, (height - shift) * wpr);
      if armed {
        MarkAll(shadow, front, wpr, height, now);
        shadow := Mark(shadow.(pixels := now), height, 0, height);
      } else {
        front := now;
      }
    }

    /** `scroll` by `shift` rows: they move up, and the text area of the last ones is blacked. */
    method Scroll(shift: nat)
      requires Valid()
      modifies this
      ensures Valid() && armed == old(armed) && (armed ==> front == old(front))
      ensures shift >= height ==> Screen() == old(Screen())
      ensures shift < height ==> exists mid: Pixels :: Scrolled(old(Screen()), mid, wpr, height, shift)
                                   && Drawn(mid, Screen(), wpr, height, 0, height - shift, width, shift, 0)
    {
      if shift >= height {
        return;
      }
      MoveRowsUp(shift);
      ghost var mid := Screen();
      FillRect(0, height - shift, width, shift, 0);
      if shift == 0 {
        NothingDrawn(mid, wpr, height, 0, height, width, 0);
      }
      assert Scrolled(old(Screen()), mid, wpr, height, shift);
    }

    /** `fb_flush`: the framebuffer shows what was drawn, and nothing is marked. */
    method Flush()
      requires Valid()
      modifies this
      ensures Valid() && armed == old(armed) && Screen() == old(Screen()) && front == Screen()
      ensures armed ==> forall r | 0 <= r < height :: !shadow.dirty[r]
    {
      if armed {
        shadow, front := Ship(shadow, front, wpr, height);
      }
    }
  }

  ghost predicate Scrolled(was: Pixels, now: Pixels, w: nat, h: nat, shift: nat) {
    |now| == |was| == h * w && forall r | 0 <= r < h :: RowScrolled(was, now, w, h, shift, r)
  }

  lemma AllScrolled(was: Pixels, w: nat, h: nat, shift: nat)
    requires |was| == h * w && shift < h
    ensures shift * w + (h - shift) * w <= |was| && Scrolled(was, MoveUp(was, shift * w, (h - shift) * w), w, h, shift)
  {
    MoveUpScrolls(was, w, h, shift, 0);
    var now := MoveUp(was, shift * w, (h - shift) * w);
    forall r | 0 <= r < h ensures RowScrolled(was, now, w, h, shift, r) {
      MoveUpScrolls(was, w, h, shift, r);
    }
  }

  lemma EmptyRect(was: Pixels, w: nat, h: nat, x: nat, y: nat, width: nat, height: nat, c: U32)
    requires |was| == h * w && x + width <= w && (width == 0 || height == 0)
    ensures Drawn(was, was, w, h, x, y, width, height, c)
  {
    forall r | 0 <= r < h ensures RowDrawn(was, was, w, r, x, y, width, height, c) {
      RowFits(r, h, w);
    }
  }
}
