/** The pixel buffer and the rectangle operations applied to it (src/framebuffer.rs). Sizes are 64 bits wide. */
module Framebuffers {
  import opened Arithmetic
  import opened Bytes
  import opened Results

  const MAX_FRAMEBUFFER_PIXELS := 0x400_0000

  datatype RectOp =
    | Raw(x: nat, y: nat, w: nat, h: nat, pixels: seq<u32>)
    | Copy(x: nat, y: nat, w: nat, h: nat, sx: nat, sy: nat)

  // ---------- What an operation means ----------

  datatype Surface = Surface(width: nat, height: nat, pixels: seq<u32>)

  /** Where the pixel of a column and a line lies in row-major order. */
  function Index(width: nat, x: nat, y: nat): nat {
    y * width + x
  }

  function Column(width: nat, i: nat): nat
    requires width > 0
  {
    i % width
  }

  function Line(width: nat, i: nat): nat
    requires width > 0
  {
    i / width
  }

  lemma IndexSplits(width: nat, i: nat)
    requires width > 0
    ensures i == Index(width, Column(width, i), Line(width, i)) && Column(width, i) < width
  {
  }

  lemma IndexIsUnique(width: nat, x: nat, y: nat)
    requires x < width
    ensures Line(width, Index(width, x, y)) == y
    ensures Column(width, Index(width, x, y)) == x
  {
    var i := Index(width, x, y);
    IndexSplits(width, i);
    SplitIsUnique(width, x, y, Column(width, i), Line(width, i));
  }

  lemma IndexOffset(width: nat, x: nat, y: nat, k: nat)
    ensures Index(width, x + k, y) == Index(width, x, y) + k
  {
  }

  lemma LinesAscend(width: nat, height: nat, x: nat, y: nat)
    requires x <= width && y < height
    ensures Index(width, x, y) <= Index(width, 0, height)
    ensures x < width ==> Index(width, x, y) < Index(width, 0, height)
  {
    assert y * width <= (height - 1) * width;
  }

  lemma LineBelow(width: nat, height: nat, i: nat)
    requires width > 0 && i < Index(width, 0, height)
    ensures Line(width, i) < height
  {
    assert i == i / width * width + i % width;
    assert (height - i / width) * width == height * width - i / width * width > 0;
  }

  predicate ValidSurface(s: Surface) {
    s.width > 0 && s.height > 0 && |s.pixels| == Index(s.width, 0, s.height)
  }

  /** The pixel at a point, 0 off the surface. */
  function At(s: Surface, x: nat, y: nat): u32
    requires ValidSurface(s)
  {
    if x < s.width && y < s.height then
      LinesAscend(s.width, s.height, x, y);
      s.pixels[Index(s.width, x, y)]
    else 0
  }

  predicate Inside(op: RectOp, x: nat, y: nat) {
    op.x <= x < op.x + op.w && op.y <= y < op.y + op.h
  }

  function Min(a: nat, b: nat): nat {
    if a <= b then a else b
  }

  predicate RowCovered(width: nat, op: RectOp, row: nat)
    requires op.Raw? && op.x < width
  {
    Index(op.w, Min(op.w, width - op.x), row) <= |op.pixels|
  }

  /** The raw data reaches every row of it that is on the surface, as far as the row is. */
  predicate Covers(width: nat, height: nat, op: RectOp) {
    op.Raw? && op.x < width ==>
      forall row :: 0 <= row < op.h && op.y + row < height ==> RowCovered(width, op, row)
  }

  lemma CoveredPoint(width: nat, height: nat, op: RectOp, x: nat, y: nat)
    requires Covers(width, height, op) && op.Raw? && Inside(op, x, y) && x < width && y < height
    ensures Index(op.w, x - op.x, y - op.y) < |op.pixels|
  {
    assert RowCovered(width, op, y - op.y);
  }

  /** The raw data for a point of the rectangle, row by row. */
  function DataAt(width: nat, height: nat, op: RectOp, x: nat, y: nat): u32
    requires Covers(width, height, op) && op.Raw? && Inside(op, x, y) && x < width && y < height
  {
    CoveredPoint(width, height, op, x, y);
    op.pixels[(y - op.y) * op.w + (x - op.x)]
  }

  /** What a point of the surface shows after the operation; sources are the pixels from before it. */
  function Shown(s: Surface, op: RectOp, x: nat, y: nat): u32
    requires ValidSurface(s) && Covers(s.width, s.height, op) && x < s.width && y < s.height
  {
    if !Inside(op, x, y) then At(s, x, y)
    else if op.Raw? then
      CoveredPoint(s.width, s.height, op, x, y);
      op.pixels[Index(op.w, x - op.x, y - op.y)]
    else At(s, op.sx + (x - op.x), op.sy + (y - op.y))
  }

  function ShownAt(s: Surface, op: RectOp, i: nat): u32
    requires ValidSurface(s) && Covers(s.width, s.height, op) && i < |s.pixels|
  {
    LineBelow(s.width, s.height, i);
    IndexSplits(s.width, i);
    Shown(s, op, Column(s.width, i), Line(s.width, i))
  }

  function Updated(s: Surface, op: RectOp): (r: Surface)
    requires ValidSurface(s) && Covers(s.width, s.height, op)
    ensures ValidSurface(r) && r.width == s.width && r.height == s.height
  {
    s.(pixels := seq(|s.pixels|, i requires 0 <= i < |s.pixels| => ShownAt(s, op, i)))
  }

  predicate AllCover(width: nat, height: nat, ops: seq<RectOp>) {
    forall i :: 0 <= i < |ops| ==> Covers(width, height, ops[i])
  }

  function AllUpdated(s: Surface, ops: seq<RectOp>): (r: Surface)
    requires ValidSurface(s) && AllCover(s.width, s.height, ops)
    ensures ValidSurface(r) && r.width == s.width && r.height == s.height
  {
    if ops == [] then s else Updated(AllUpdated(s, ops[..|ops| - 1]), ops[|ops| - 1])
  }

  /**
   Point by point: inside the rectangle and on the surface, Raw shows its data and Copy the pixel that was
   at the source point before, 0 if that is off the surface, even when source and target overlap. Every
   other point is as before.
   */
  lemma UpdatedAt(s: Surface, op: RectOp, x: nat, y: nat)
    requires ValidSurface(s) && Covers(s.width, s.height, op)
    ensures At(Updated(s, op), x, y) ==
            if x >= s.width || y >= s.height then 0
            else if !(op.x <= x < op.x + op.w && op.y <= y < op.y + op.h) then At(s, x, y)
            else if op.Copy? then At(s, op.sx + (x - op.x), op.sy + (y - op.y))
            else DataAt(s.width, s.height, op, x, y)
  {
    if x < s.width && y < s.height {
      LinesAscend(s.width, s.height, x, y);
      IndexIsUnique(s.width, x, y);
      assert Updated(s, op).pixels[Index(s.width, x, y)] == ShownAt(s, op, Index(s.width, x, y));
    }
  }

  /** Operations take effect one after the other, in their order. */
  lemma {:induction false} AppliedInOrder(s: Surface, a: seq<RectOp>, b: seq<RectOp>)
    requires ValidSurface(s) && AllCover(s.width, s.height, a) && AllCover(s.width, s.height, b)
    ensures AllCover(s.width, s.height, a + b)
    ensures AllUpdated(s, a + b) == AllUpdated(AllUpdated(s, a), b)
    ensures |b| == 1 ==> AllUpdated(s, b) == Updated(s, b[0])
    ensures b == [] ==> AllUpdated(s, b) == s
  {
    hide Updated, Covers;
    if b == [] {
      assert a + b == a;
    } else {
      var front := b[..|b| - 1];
      AppliedInOrder(s, a, front);
      assert (a + b)[..|a + b| - 1] == a + front;
    }
  }

  /**
   In the end a point shows what the last operation on it left there: raw data, or what was at the source of a
   copy just before.
   */
  lemma {:induction false} LastWriteShows(s: Surface, ops: seq<RectOp>, k: nat, x: nat, y: nat)
    requires ValidSurface(s) && AllCover(s.width, s.height, ops) && x < s.width && y < s.height && k < |ops|
    requires forall j :: k < j < |ops| ==> !Inside(ops[j], x, y)
    requires Inside(ops[k], x, y)
    ensures AllCover(s.width, s.height, ops[..k])
    ensures var before := AllUpdated(s, ops[..k]);
            At(AllUpdated(s, ops), x, y) ==
            if ops[k].Copy? then At(before, ops[k].sx + (x - ops[k].x), ops[k].sy + (y - ops[k].y))
            else DataAt(s.width, s.height, ops[k], x, y)
    decreases |ops|
  {
    hide Updated, Covers, At, Index;
    var front, last := ops[..|ops| - 1], ops[|ops| - 1];
    UpdatedAt(AllUpdated(s, front), last, x, y);
    if k < |front| {
      assert front[..k] == ops[..k];
      LastWriteShows(s, front, k, x, y);
    }
  }

  /** A point that no operation touches stays as it was. */
  lemma {:induction false} UntouchedStays(s: Surface, ops: seq<RectOp>, x: nat, y: nat)
    requires ValidSurface(s) && AllCover(s.width, s.height, ops) && x < s.width && y < s.height
    requires forall j :: 0 <= j < |ops| ==> !Inside(ops[j], x, y)
    ensures At(AllUpdated(s, ops), x, y) == At(s, x, y)
  {
    hide Updated, Covers, At;
    if ops != [] {
      var front := ops[..|ops| - 1];
      UntouchedStays(s, front, x, y);
      UpdatedAt(AllUpdated(s, front), ops[|ops| - 1], x, y);
    }
  }

  lemma LinesOutside(s: Surface, op: RectOp)
    requires ValidSurface(s) && Covers(s.width, s.height, op)
    ensures forall i :: 0 <= i < |s.pixels| && !(op.y <= Line(s.width, i) < op.y + op.h) ==>
              ShownAt(s, op, i) == s.pixels[i]
  {
    hide Index, Column, Line;
    forall i | 0 <= i < |s.pixels| && !(op.y <= Line(s.width, i) < op.y + op.h)
      ensures ShownAt(s, op, i) == s.pixels[i]
    {
      IndexSplits(s.width, i);
      LineBelow(s.width, s.height, i);
    }
  }

  /** What raw data leaves at a pixel depends on that pixel alone. */
  lemma RawIsLocal(s: Surface, t: Surface, op: RectOp)
    requires ValidSurface(s) && ValidSurface(t) && s.width == t.width && s.height == t.height
    requires Covers(s.width, s.height, op) && op.Raw?
    ensures forall i :: 0 <= i < |s.pixels| && s.pixels[i] == t.pixels[i] ==> ShownAt(s, op, i) == ShownAt(t, op, i)
  {
    hide Index, Column, Line;
    forall i | 0 <= i < |s.pixels| && s.pixels[i] == t.pixels[i]
      ensures ShownAt(s, op, i) == ShownAt(t, op, i)
    {
      IndexSplits(s.width, i);
      LineBelow(s.width, s.height, i);
    }
  }

  /** The rows gathered so far of the source rectangle, each w wide, with 0 for points off the surface. */
  predicate Gathered(s: Surface, sx: nat, sy: nat, w: nat, tmp: seq<u32>, rows: nat)
    requires ValidSurface(s)
  {
    && |tmp| == Index(w, 0, rows)
    && forall c, r :: 0 <= c < w && 0 <= r < rows ==>
         Index(w, c, r) < |tmp| && tmp[Index(w, c, r)] == At(s, sx + c, sy + r)
  }

  lemma GatherRow(s: Surface, sx: nat, sy: nat, w: nat, tmp: seq<u32>, rows: nat, line: seq<u32>)
    requires ValidSurface(s) && Gathered(s, sx, sy, w, tmp, rows)
    requires |line| == w && forall c :: 0 <= c < w ==> line[c] == At(s, sx + c, sy + rows)
    ensures Gathered(s, sx, sy, w, tmp + line, rows + 1)
  {
    NextLine(w, rows);
    hide Index, At;
    forall c, r | 0 <= c < w && 0 <= r < rows + 1
      ensures Index(w, c, r) < |tmp + line| && (tmp + line)[Index(w, c, r)] == At(s, sx + c, sy + r)
    {
      if r == rows {
        IndexOffset(w, 0, rows, c);
        assert (tmp + line)[|tmp| + c] == line[c];
      } else {
        assert tmp[Index(w, c, r)] == At(s, sx + c, sy + r);
      }
    }
  }

  lemma NextLine(width: nat, y: nat)
    ensures Index(width, 0, y + 1) == Index(width, 0, y) + width
  {
  }

  /** Writing what was gathered is the copy. */
  lemma GatheredIsCopy(s: Surface, x: nat, y: nat, w: nat, h: nat, sx: nat, sy: nat, tmp: seq<u32>)
    requires ValidSurface(s) && Gathered(s, sx, sy, w, tmp, h)
    ensures Covers(s.width, s.height, Raw(x, y, w, h, tmp))
    ensures Updated(s, Raw(x, y, w, h, tmp)) == Updated(s, Copy(x, y, w, h, sx, sy))
  {
    hide Index, Column, Line, At;
    WholeRowsCover(s.width, s.height, Raw(x, y, w, h, tmp));
    forall i | 0 <= i < |s.pixels|
      ensures ShownAt(s, Raw(x, y, w, h, tmp), i) == ShownAt(s, Copy(x, y, w, h, sx, sy), i)
    {
      LineBelow(s.width, s.height, i);
      IndexSplits(s.width, i);
      var px, py := Column(s.width, i), Line(s.width, i);
      if x <= px < x + w && y <= py < y + h {
        assert tmp[Index(w, px - x, py - y)] == At(s, sx + (px - x), sy + (py - y));
      }
    }
  }

  /** Data for the whole rectangle covers it on any surface. */
  lemma WholeRowsCover(width: nat, height: nat, op: RectOp)
    requires op.Raw? ==> |op.pixels| == Index(op.w, 0, op.h)
    ensures Covers(width, height, op)
  {
    hide Index;
    if op.Raw? && op.x < width {
      forall row | 0 <= row < op.h && op.y + row < height
        ensures RowCovered(width, op, row)
      {
        LinesAscend(op.w, op.h, Min(op.w, width - op.x), row);
      }
    }
  }

  // ---------- The buffer ----------

  predicate ValidGeometry(width: nat, height: nat) {
    width > 0 && height > 0 && width * height <= MAX_FRAMEBUFFER_PIXELS
  }

  class Framebuffer {
    const width: nat
    const height: nat
    const pixels: array<u32>

    ghost predicate Valid() {
      width > 0 && height > 0 && pixels.Length == Index(width, 0, height)
    }

    ghost function View(): Surface
      reads pixels
    {
      Surface(width, height, pixels[..])
    }

    constructor (width: nat, height: nat)
      requires ValidGeometry(width, height)
      ensures Valid() && fresh(pixels) && this.width == width && this.height == height
      ensures forall i :: 0 <= i < pixels.Length ==> pixels[i] == 0
    {
      this.width, this.height := width, height;
      pixels := new u32[width * height](_ => 0);
    }

    /** Copies the part of one row of the rectangle that is on the surface. */
    method WriteRow(x: nat, y: nat, w: nat, h: nat, data: seq<u32>, row: nat)
      requires Valid() && Covers(width, height, Raw(x, y, w, h, data)) && row < h
      modifies pixels
      ensures forall i :: 0 <= i < pixels.Length ==>
                pixels[i] == if Line(width, i) == y + row then ShownAt(old(View()), Raw(x, y, w, h, data), i)
                             else old(pixels[i])
    {
      hide Index, Column, Line;
      ghost var before, op := View(), Raw(x, y, w, h, data);
      var dy := y + row;
      if dy >= height || x >= width {
        forall i | 0 <= i < pixels.Length
          ensures Line(width, i) == dy ==> ShownAt(before, op, i) == pixels[i]
        {
          LineBelow(width, height, i);
          IndexSplits(width, i);
        }
        return;
      }
      var cw := Min(w, width - x);
      var dst, src := Index(width, x, dy), Index(w, 0, row);
      IndexOffset(width, x, dy, cw);
      LinesAscend(width, height, x + cw, dy);
      IndexOffset(w, 0, row, cw);
      assert RowCovered(width, op, row);
      forall k | 0 <= k < cw {
        pixels[dst + k] := data[src + k];
      }
      forall i | 0 <= i < pixels.Length
        ensures pixels[i] == if Line(width, i) == dy then ShownAt(before, op, i) else before.pixels[i]
      {
        IndexSplits(width, i);
        LineBelow(width, height, i);
        if dst <= i < dst + cw {
          var k := i - dst;
          IndexOffset(width, x, dy, k);
          IndexIsUnique(width, x + k, dy);
          IndexOffset(w, 0, row, k);
          assert pixels[dst + k] == data[src + k];
        } else if Line(width, i) == dy && x <= Column(width, i) {
          IndexOffset(width, x, dy, Column(width, i) - x);
        }
      }
    }

    method WriteRect(x: nat, y: nat, w: nat, h: nat, data: seq<u32>)
      requires Valid() && Covers(width, height, Raw(x, y, w, h, data))
      modifies pixels
      ensures View() == Updated(old(View()), Raw(x, y, w, h, data))
    {
      hide Index, Column, Line;
      ghost var before, op := View(), Raw(x, y, w, h, data);
      LinesOutside(before, op);
      for row := 0 to h
        invariant forall i :: 0 <= i < pixels.Length ==>
                    pixels[i] == if Line(width, i) < y + row then ShownAt(before, op, i) else before.pixels[i]
      {
        RawIsLocal(View(), before, op);
        WriteRow(x, y, w, h, data, row);
      }
    }

    /** Gathers the source rows first and then writes them the way raw data is written. */
    method CopyRect(sx: nat, sy: nat, dx: nat, dy: nat, w: nat, h: nat)
      requires Valid()
      modifies pixels
      ensures View() == Updated(old(View()), Copy(dx, dy, w, h, sx, sy))
    {
      hide Index, Updated;
      var tmp: seq<u32> := [];
      NothingGathered(View(), sx, sy, w);
      for row := 0 to h
        invariant View() == old(View()) && Gathered(View(), sx, sy, w, tmp, row)
      {
        var y := sy + row;
        var line := seq(w, _ => 0);
        if y < height && sx < width {
          var cw := Min(w, width - sx);
          var s := Index(width, sx, y);
          IndexOffset(width, sx, y, cw);
          LinesAscend(width, height, sx + cw, y);
          line := pixels[s..s + cw] + seq(w - cw, _ => 0);
          forall c | 0 <= c < cw
            ensures line[c] == At(View(), sx + c, y)
          {
            IndexOffset(width, sx, y, c);
          }
        }
        GatherRow(View(), sx, sy, w, tmp, row, line);
        tmp := tmp + line;
      }
      GatheredIsCopy(View(), dx, dy, w, h, sx, sy, tmp);
      WriteRect(dx, dy, w, h, tmp);
    }

    /** Applies the operations one after the other. */
    method Apply(ops: seq<RectOp>)
      requires Valid() && AllCover(width, height, ops)
      modifies pixels
      ensures View() == AllUpdated(old(View()), ops)
    {
      hide Index, Updated;
      for i := 0 to |ops|
        invariant View() == AllUpdated(old(View()), ops[..i])
      {
        assert ops[..i + 1][..i] == ops[..i];
        match ops[i] {
          case Raw(x, y, w, h, data) => WriteRect(x, y, w, h, data);
          case Copy(x, y, w, h, sx, sy) => CopyRect(sx, sy, x, y, w, h);
        }
      }
      assert ops[..|ops|] == ops;
    }
  }

  /** A buffer of zero pixels, or an error for an empty or too large one. */
  method NewFramebuffer(width: nat, height: nat) returns (r: Result<Framebuffer>)
    ensures r.Ok? <==> ValidGeometry(width, height)
    ensures r.Ok? ==>
              && fresh(r.value) && fresh(r.value.pixels) && r.value.Valid()
              && r.value.width == width && r.value.height == height
              && forall i :: 0 <= i < r.value.pixels.Length ==> r.value.pixels[i] == 0
  {
    if width == 0 || height == 0 || width * height > MAX_FRAMEBUFFER_PIXELS {
      return Err;
    }
    var framebuffer := new Framebuffer(width, height);
    return Ok(framebuffer);
  }

  lemma NothingGathered(s: Surface, sx: nat, sy: nat, w: nat)
    requires ValidSurface(s)
    ensures Gathered(s, sx, sy, w, [], 0)
  {
  }
}
