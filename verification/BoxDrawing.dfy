/**
 Boxes on the frame buffers of the video DMA controller. The box routines step from row to row
 by adding to an address; they are proved to write what the single-pixel routine would write
 for every pixel of the box. Addresses are 32-bit words and wrap around.
 */
module BoxDrawing {
  import opened Basics
  import opened Arithmetic

  /** `v << n` before wrapping around. */
  function Lsl(v: nat, n: nat): nat
    decreases n
  {
    if n == 0 then v else Lsl(2 * v, n - 1)
  }

  /** `v << n`. */
  function Shl(v: nat, n: nat): U32 { Word(Lsl(v, n)) }

  /** `v & mask` for a mask of `n` ones. */
  function Masked(v: nat, n: nat): nat {
    if n == 0 then 0 else v % 2 + 2 * Masked(v / 2, n - 1)
  }

  datatype Pixel = Pixel(x: nat, y: nat)

  /** A store to the frame buffer. */
  datatype Write = Write(addr: U32, width: nat, symbol: U32)

  /** The device; masks are given by their number of ones. */
  datatype Dma = Dma(
    start: U32, backStart: U32, xyMode: bool,
    dataWidth: nat, xRes: U32, yRes: U32,
    xOffset: nat, xBits: nat, yOffset: nat, yBits: nat
  )

  /** The fields as the initialisation macro sets them, with masks wide enough for the resolution. */
  predicate Consistent(d: Dma) {
    && (d.dataWidth, d.xOffset) in [(1, 0), (2, 1), (4, 2)]
    && d.yOffset == d.xBits + d.xOffset
    && d.xRes <= Lsl(1, d.xBits) && d.yRes <= Lsl(1, d.yBits)
  }

  predicate OnScreen(d: Dma, p: Pixel) { p.x < d.xRes && p.y < d.yRes }

  function Base(d: Dma, back: bool): U32 { if back then d.backStart else d.start }

  // ---------------------------------------------------------------- one pixel

  /** The offset of a pixel from the start of the buffer, in the two modes. */
  function Offset(d: Dma, x: nat, y: nat): U32 {
    if d.xyMode then Word(Shl(x, d.xOffset) + Shl(y, d.yOffset))
    else Word(Shl(x, d.xOffset) + Shl(Word(y * d.xRes), d.xOffset))
  }

  /** The address alt_up_video_dma_draw computes. */
  function PixelAddress(d: Dma, back: bool, x: nat, y: nat): U32 {
    Word(Base(d, back) + Offset(d, Masked(x, d.xBits), Masked(y, d.yBits)))
  }

  /** Which of the three store instructions is used. */
  function Bytes(d: Dma): nat { if d.dataWidth == 1 then 1 else if d.dataWidth == 2 then 2 else 4 }

  function WriteOf(d: Dma, back: bool, symbol: U32, p: Pixel): Write {
    Write(PixelAddress(d, back, p.x, p.y), Bytes(d), symbol)
  }

  /** Bytes from one row to the next, before wrapping around. */
  function Stride(d: Dma): nat { if d.xyMode then Lsl(1, d.yOffset) else Lsl(d.xRes, d.xOffset) }

  lemma {:induction false} LslAdd(a: nat, b: nat, n: nat)
    ensures Lsl(a + b, n) == Lsl(a, n) + Lsl(b, n)
    decreases n
  {
    if n > 0 { LslAdd(2 * a, 2 * b, n - 1); }
  }

  lemma {:induction false} LslLess(a: nat, b: nat, n: nat)
    requires a < b
    ensures Lsl(a, n) < Lsl(b, n)
    decreases n
  {
    if n > 0 { LslLess(2 * a, 2 * b, n - 1); }
  }

  lemma {:induction false} LslTwice(v: nat, a: nat, b: nat)
    ensures Lsl(Lsl(v, a), b) == Lsl(v, a + b)
    decreases a
  {
    if a > 0 { LslTwice(2 * v, a - 1, b); }
  }

  lemma {:induction false} LslRows(n: nat, stride: nat, k: nat)
    ensures Lsl(Times(n, stride), k) == Times(n, Lsl(stride, k))
  {
    if n > 0 {
      LslRows(n - 1, stride, k);
      LslAdd(Times(n - 1, stride), stride, k);
    } else {
      LslAdd(0, 0, k);
    }
  }

  lemma {:induction false} MaskedIs(v: nat, n: nat)
    requires v < Lsl(1, n)
    ensures Masked(v, n) == v
  {
    if n > 0 {
      LslAdd(1, 1, n - 1);
      MaskedIs(v / 2, n - 1);
    }
  }

  lemma WordAdd(a: nat, b: nat)
    ensures Word(Word(a) + b) == Word(a + b) && Word(a + Word(b)) == Word(a + b)
  {
    WordShift(Word(a) + b, a / WORD);
    WordShift(a + Word(b), b / WORD);
  }

  lemma WordShift(x: nat, k: nat)
    ensures Word(x + WORD * k) == Word(x)
  { }

  lemma BothWords(a: nat, b: nat)
    ensures Word(Word(a) + Word(b)) == Word(a + b)
  {
    WordAdd(Word(a), b);
    WordAdd(a, b);
  }

  lemma {:induction false} ShlWord(v: nat, n: nat)
    ensures Shl(Word(v), n) == Shl(v, n)
    decreases n
  {
    if n > 0 {
      ShlWord(2 * v, n - 1);
      ShlWord(2 * Word(v), n - 1);
      WordTwice(v);
    }
  }

  lemma WordTwice(v: nat)
    ensures Word(2 * Word(v)) == Word(2 * v)
  {
    hide Word;
    BothWords(v, v);
  }

  lemma {:induction false} WordRows(n: nat, stride: nat)
    ensures Word(Times(n, Word(stride))) == Word(Times(n, stride))
  {
    if n > 0 {
      WordRows(n - 1, stride);
      BothWords(Times(n - 1, stride), stride);
      WordAdd(Times(n - 1, Word(stride)), Word(stride));
    }
  }

  /** How far a row is from the start of the buffer, in the two modes. */
  lemma RowOffset(d: Dma, y: nat)
    ensures d.xyMode ==> Shl(y, d.yOffset) == Word(Times(y, Stride(d)))
    ensures !d.xyMode ==> Shl(Word(y * d.xRes), d.xOffset) == Word(Times(y, Stride(d)))
  {
    if d.xyMode {
      TimesIs(y, 1);
      LslRows(y, 1, d.yOffset);
    } else {
      TimesIs(y, d.xRes);
      ShlWord(Times(y, d.xRes), d.xOffset);
      LslRows(y, d.xRes, d.xOffset);
    }
  }

  /** Inside the screen the address is a row's start plus the pixel's place in the row. */
  lemma PixelAddressIs(d: Dma, back: bool, x: nat, y: nat)
    requires Consistent(d) && x < d.xRes && y < d.yRes
    ensures PixelAddress(d, back, x, y) == Word(Base(d, back) + Times(y, Stride(d)) + Lsl(x, d.xOffset))
    ensures Base(d, back) == if back then d.backStart else d.start
  {
    MaskedIs(x, d.xBits);
    MaskedIs(y, d.yBits);
    OffsetIs(d, back, x, y);
  }

  lemma OffsetIs(d: Dma, back: bool, x: nat, y: nat)
    ensures Word(Base(d, back) + Offset(d, x, y)) == Word(Base(d, back) + Times(y, Stride(d)) + Lsl(x, d.xOffset))
  {
    RowOffset(d, y);
    AddWords(Base(d, back), Lsl(x, d.xOffset), Times(y, Stride(d)));
  }

  lemma AddWords(base: nat, a: nat, b: nat)
    ensures Word(base + Word(Word(a) + Word(b))) == Word(base + b + a)
  {
    BothWords(a, b);
    WordAdd(base, a + b);
  }

  // ---------------------------------------------------------------- what a store is

  /** Bytes from one row to the next: in XY mode a row has a place for every column number, else for every pixel. */
  function RowBytes(d: Dma): nat {
    (if d.xyMode then Lsl(1, d.xBits) else d.xRes) * d.dataWidth
  }

  /** The store of a symbol of the data width to the place of a pixel in the chosen buffer. */
  ghost predicate IsStore(w: Write, d: Dma, back: bool, symbol: U32, p: Pixel) {
    && w.symbol == symbol
    && w.width == d.dataWidth
    && w.addr == ((if back then d.backStart else d.start) + p.y * RowBytes(d) + p.x * d.dataWidth) % WORD
  }

  /** One store for each pixel, in order. */
  ghost predicate AreStores(writes: seq<Write>, d: Dma, back: bool, symbol: U32, pixels: seq<Pixel>) {
    |writes| == |pixels| && forall i | 0 <= i < |writes| :: IsStore(writes[i], d, back, symbol, pixels[i])
  }

  lemma LslIsTimes(d: Dma, v: nat)
    requires Consistent(d)
    ensures Lsl(v, d.xOffset) == Times(v, d.dataWidth)
  {
    TimesIs(v, d.dataWidth);
    if d.xOffset == 2 { assert Lsl(v, 2) == Lsl(2 * v, 1) == Lsl(4 * v, 0); }
  }

  lemma StrideIs(d: Dma)
    requires Consistent(d)
    ensures Stride(d) == RowBytes(d)
  {
    if d.xyMode {
      LslTwice(1, d.xBits, d.xOffset);
      LslIsTimes(d, Lsl(1, d.xBits));
      TimesIs(Lsl(1, d.xBits), d.dataWidth);
    } else {
      LslIsTimes(d, d.xRes);
      TimesIs(d.xRes, d.dataWidth);
    }
  }

  /** On the screen the address is that of the chosen buffer, plus the rows above, plus the pixels to the left. */
  lemma StoreIs(d: Dma, back: bool, symbol: U32, p: Pixel)
    requires Consistent(d) && OnScreen(d, p)
    ensures IsStore(WriteOf(d, back, symbol, p), d, back, symbol, p)
  {
    hide Times, Lsl, PixelAddress, RowBytes, Stride;
    PixelAddressIs(d, back, p.x, p.y);
    StrideIs(d);
    LslIsTimes(d, p.x);
    TimesIs(p.x, d.dataWidth);
    TimesIs(p.y, RowBytes(d));
  }

  lemma WritesAreStores(d: Dma, back: bool, symbol: U32, pixels: seq<Pixel>)
    requires Consistent(d) && forall i | 0 <= i < |pixels| :: OnScreen(d, pixels[i])
    ensures AreStores(WritesOf(d, back, symbol, pixels), d, back, symbol, pixels)
  {
    hide IsStore, WriteOf;
    forall i | 0 <= i < |pixels| ensures IsStore(WriteOf(d, back, symbol, pixels[i]), d, back, symbol, pixels[i]) {
      StoreIs(d, back, symbol, pixels[i]);
    }
  }

  // ---------------------------------------------------------------- rows and boxes of pixels

  /** The first `n` pixels of row `y` from column `l`. */
  function RowPixels(y: nat, l: nat, n: nat): (r: seq<Pixel>)
    ensures |r| == n && forall i | 0 <= i < n :: r[i] == Pixel(l + i, y)
  {
    seq(n, i requires 0 <= i < n => Pixel(l + i, y))
  }

  function ColumnPixels(x: nat, t: nat, n: nat): (r: seq<Pixel>)
    ensures |r| == n && forall i | 0 <= i < n :: r[i] == Pixel(x, t + i)
  {
    seq(n, i requires 0 <= i < n => Pixel(x, t + i))
  }

  /** The first `n` rows of `w` pixels each. */
  function BoxPixels(l: nat, t: nat, w: nat, n: nat): seq<Pixel> {
    if n == 0 then [] else BoxPixels(l, t, w, n - 1) + RowPixels(t + n - 1, l, w)
  }

  function WritesOf(d: Dma, back: bool, symbol: U32, pixels: seq<Pixel>): (r: seq<Write>)
    ensures |r| == |pixels| && forall i | 0 <= i < |r| :: r[i] == WriteOf(d, back, symbol, pixels[i])
  {
    seq(|pixels|, i requires 0 <= i < |pixels| => WriteOf(d, back, symbol, pixels[i]))
  }

  lemma WritesOfBoth(d: Dma, back: bool, symbol: U32, a: seq<Pixel>, b: seq<Pixel>)
    ensures WritesOf(d, back, symbol, a + b) == WritesOf(d, back, symbol, a) + WritesOf(d, back, symbol, b)
  { }

  /** The list has exactly the pixels of the box, and none twice. */
  lemma {:induction false} BoxPixelsAre(l: nat, t: nat, w: nat, n: nat)
    ensures |BoxPixels(l, t, w, n)| == n * w
    ensures forall p :: p in BoxPixels(l, t, w, n) <==> l <= p.x < l + w && t <= p.y < t + n
    ensures forall i, j | 0 <= i < j < |BoxPixels(l, t, w, n)| :: BoxPixels(l, t, w, n)[i] != BoxPixels(l, t, w, n)[j]
  {
    if n > 0 {
      BoxPixelsAre(l, t, w, n - 1);
      var rows, last := BoxPixels(l, t, w, n - 1), RowPixels(t + n - 1, l, w);
      forall p ensures p in last <==> l <= p.x < l + w && p.y == t + n - 1 {
        if l <= p.x < l + w && p.y == t + n - 1 { assert last[p.x - l] == p; }
      }
      assert BoxPixels(l, t, w, n) == rows + last;
      forall i, j | 0 <= i < j < |rows + last| ensures (rows + last)[i] != (rows + last)[j] {
        if i < |rows| <= j { assert rows[i] in rows && last[j - |rows|] in last; }
      }
      assert n * w == (n - 1) * w + w;
    }
  }

  // ---------------------------------------------------------------- different pixels, different addresses

  /** The frame buffer is no larger than the address space. */
  predicate FitsMemory(d: Dma) {
    d.yRes * Stride(d) <= WORD
  }

  lemma {:induction false} LaterRow(y: nat, y': nat, stride: nat, a: nat, b: nat)
    requires a < stride && y < y'
    ensures Times(y, stride) + a < Times(y', stride) + b
    decreases y'
  {
    if y < y' - 1 { LaterRow(y, y' - 1, stride, a, b); }
  }

  lemma RowsApart(y: nat, y': nat, stride: nat, a: nat, b: nat)
    requires a < stride && b < stride && Times(y, stride) + a == Times(y', stride) + b
    ensures y == y' && a == b
  {
    if y < y' { LaterRow(y, y', stride, a, b); }
    if y' < y { LaterRow(y', y, stride, b, a); }
  }

  lemma InRow(d: Dma, x: nat)
    requires Consistent(d) && x < d.xRes
    ensures Lsl(x, d.xOffset) < Stride(d)
  {
    LslLess(x, d.xRes, d.xOffset);
    if d.xyMode {
      LslTwice(1, d.xBits, d.xOffset);
      if d.xRes < Lsl(1, d.xBits) { LslLess(d.xRes, Lsl(1, d.xBits), d.xOffset); }
    }
  }

  lemma SameWord(base: nat, a: nat, b: nat)
    requires Word(base + a) == Word(base + b) && a < WORD && b < WORD
    ensures a == b
  { }

  lemma InFrame(d: Dma, p: Pixel)
    requires Consistent(d) && FitsMemory(d) && p.x < d.xRes && p.y < d.yRes
    ensures Times(p.y, Stride(d)) + Lsl(p.x, d.xOffset) < WORD
  {
    InRow(d, p.x);
    TimesIs(d.yRes, Stride(d));
    LaterRow(p.y, d.yRes, Stride(d), Lsl(p.x, d.xOffset), 0);
  }

  /** No two pixels of the screen share an address. */
  lemma AddressesDiffer(d: Dma, back: bool, p: Pixel, q: Pixel)
    requires Consistent(d) && FitsMemory(d)
    requires p.x < d.xRes && p.y < d.yRes && q.x < d.xRes && q.y < d.yRes
    requires PixelAddress(d, back, p.x, p.y) == PixelAddress(d, back, q.x, q.y)
    ensures p == q
  {
    PixelAddressIs(d, back, p.x, p.y);
    PixelAddressIs(d, back, q.x, q.y);
    InFrame(d, p);
    InFrame(d, q);
    InRow(d, p.x);
    InRow(d, q.x);
    var a, b := Lsl(p.x, d.xOffset), Lsl(q.x, d.xOffset);
    SameWord(Base(d, back), Times(p.y, Stride(d)) + a, Times(q.y, Stride(d)) + b);
    RowsApart(p.y, q.y, Stride(d), a, b);
    if p.x < q.x { LslLess(p.x, q.x, d.xOffset); }
    if q.x < p.x { LslLess(q.x, p.x, d.xOffset); }
  }

  // ---------------------------------------------------------------- which box is drawn

  /** A box on the screen, by its upper left corner, width and number of rows. */
  datatype Box = OffScreen | Box(l: nat, t: nat, w: nat, n: nat)

  /** The box between two opposite corners, clipped to the screen. */
  function Clipped(d: Dma, x0: nat, y0: nat, x1: nat, y1: nat): Box {
    var l, r := if x0 > x1 then x1 else x0, if x0 > x1 then x0 else x1;
    var t, b := if y0 > y1 then y1 else y0, if y0 > y1 then y0 else y1;
    if l >= d.xRes || t >= d.yRes then OffScreen
    else Box(l, t, (if r >= d.xRes then d.xRes - 1 else r) - l + 1, (if b >= d.yRes then d.yRes - 1 else b) - t + 1)
  }

  function PixelsOf(box: Box): seq<Pixel> {
    if box.OffScreen? then [] else BoxPixels(box.l, box.t, box.w, box.n)
  }

  predicate Between(v: nat, a: nat, b: nat) { a <= v <= b || b <= v <= a }

  /** The clipped box holds exactly the pixels of the screen between the corners, each once. */
  lemma ClippedIs(d: Dma, x0: nat, y0: nat, x1: nat, y1: nat)
    ensures var pixels := PixelsOf(Clipped(d, x0, y0, x1, y1));
            && (forall p :: p in pixels <==> OnScreen(d, p) && Between(p.x, x0, x1) && Between(p.y, y0, y1))
            && (forall i, j | 0 <= i < j < |pixels| :: pixels[i] != pixels[j])
  {
    var box := Clipped(d, x0, y0, x1, y1);
    if box.Box? { BoxPixelsAre(box.l, box.t, box.w, box.n); }
  }

  /** Filling from corner to corner of the screen, as alt_up_video_dma_screen_fill does, reaches every pixel once. */
  lemma ScreenFillCovers(d: Dma, back: bool, symbol: U32)
    requires Consistent(d) && FitsMemory(d)
    ensures var pixels := PixelsOf(Clipped(d, 0, 0, d.xRes, d.yRes));
            var writes := WritesOf(d, back, symbol, pixels);
            && |writes| == d.yRes * d.xRes
            && (forall p | OnScreen(d, p) :: WriteOf(d, back, symbol, p) in writes)
            && (forall i, j | 0 <= i < j < |writes| :: writes[i].addr != writes[j].addr)
  {
    var pixels := PixelsOf(Clipped(d, 0, 0, d.xRes, d.yRes));
    var writes := WritesOf(d, back, symbol, pixels);
    ClippedIs(d, 0, 0, d.xRes, d.yRes);
    ScreenSize(d);
    forall p | OnScreen(d, p) ensures WriteOf(d, back, symbol, p) in writes {
      assert p in pixels;
      var i :| 0 <= i < |pixels| && pixels[i] == p;
      assert writes[i] == WriteOf(d, back, symbol, p);
    }
    forall i, j | 0 <= i < j < |writes| ensures writes[i].addr != writes[j].addr {
      WritesDiffer(d, back, symbol, pixels, i, j);
    }
  }

  lemma ScreenSize(d: Dma)
    ensures |PixelsOf(Clipped(d, 0, 0, d.xRes, d.yRes))| == d.yRes * d.xRes
  {
    if d.xRes > 0 && d.yRes > 0 { BoxPixelsAre(0, 0, d.xRes, d.yRes); }
  }

  lemma WritesDiffer(d: Dma, back: bool, symbol: U32, pixels: seq<Pixel>, i: nat, j: nat)
    requires Consistent(d) && FitsMemory(d) && i < |pixels| && j < |pixels| && pixels[i] != pixels[j]
    requires OnScreen(d, pixels[i]) && OnScreen(d, pixels[j])
    ensures WritesOf(d, back, symbol, pixels)[i].addr != WritesOf(d, back, symbol, pixels)[j].addr
  {
    if PixelAddress(d, back, pixels[i].x, pixels[i].y) == PixelAddress(d, back, pixels[j].x, pixels[j].y) {
      AddressesDiffer(d, back, pixels[i], pixels[j]);
    }
  }

  // ---------------------------------------------------------------- the code

  /** The address of the first pixel of a row. */
  function RowStart(d: Dma, back: bool, y: nat): U32 { Word(Base(d, back) + Times(y, Stride(d))) }

  lemma NextRowStart(d: Dma, back: bool, y: nat, step: U32)
    requires step == Word(Stride(d))
    ensures Word(RowStart(d, back, y) + step) == RowStart(d, back, y + 1)
  {
    BothWords(Base(d, back) + Times(y, Stride(d)), Stride(d));
  }

  /** A row's start from a row number times a step that has wrapped around. */
  lemma FirstRowStart(d: Dma, back: bool, y: nat, step: U32)
    requires step == Word(Stride(d))
    ensures Word(Base(d, back) + Word(y * step)) == RowStart(d, back, y)
  {
    TimesIs(y, step);
    WordRows(y, Stride(d));
    WordAdd(Base(d, back), Times(y, Stride(d)));
  }

  /** A row's start in the two modes, as the horizontal line and the boxes in XY mode compute it. */
  lemma ShiftedRowStart(d: Dma, back: bool, y: nat)
    ensures d.xyMode ==> Word(Base(d, back) + Shl(y, d.yOffset)) == RowStart(d, back, y)
    ensures !d.xyMode ==> Word(Base(d, back) + Shl(Word(y * d.xRes), d.xOffset)) == RowStart(d, back, y)
  {
    RowOffset(d, y);
    WordAdd(Base(d, back), Times(y, Stride(d)));
  }

  /** A row's start plus the pixel's place in the row. */
  function Place(d: Dma, back: bool, x: nat, y: nat): U32 { Word(RowStart(d, back, y) + Shl(x, d.xOffset)) }

  lemma InRowAddress(d: Dma, back: bool, x: nat, y: nat)
    requires Consistent(d) && x < d.xRes && y < d.yRes
    ensures Place(d, back, x, y) == PixelAddress(d, back, x, y)
  {
    hide Times, Lsl, Word;
    PixelAddressIs(d, back, x, y);
    BothWords(Base(d, back) + Times(y, Stride(d)), Lsl(x, d.xOffset));
  }

  lemma Reordered(b: nat, s: nat, r: nat)
    ensures Word(Word(b + s) + r) == Word(Word(b + r) + s)
  {
    WordAdd(b + s, r);
    WordAdd(b + r, s);
  }

  lemma BothStep(a: nat, o: nat, r: nat, s: nat, inc: nat)
    requires Word(a + o) == Word(r + s)
    ensures Word(a + Word(o + inc)) == Word(Word(r + inc) + s)
  {
    WordAdd(a, o + inc);
    WordAdd(a + o, inc);
    WordAdd(r + s, inc);
    WordAdd(r + inc, s);
  }

  /** The shift the routines choose by data width. */
  function Shift(d: Dma): nat { if d.dataWidth == 1 then 0 else if d.dataWidth == 2 then 1 else 2 }

  /** The inner loop of every filling routine and of the horizontal lines, in the source once for each data width. */
  method DrawRow(d: Dma, symbol: U32, addr: U32, l: U32, r: U32, ghost back: bool, ghost y: nat)
    returns (writes: seq<Write>)
    requires Consistent(d) && l <= r < d.xRes && y < d.yRes && addr == RowStart(d, back, y)
    ensures writes == WritesOf(d, back, symbol, RowPixels(y, l, r - l + 1))
  {
    hide WritesOf, Word, Shl;
    writes := [];
    var x := l;
    while x <= r
      invariant l <= x <= r + 1
      invariant writes == WritesOf(d, back, symbol, RowPixels(y, l, x - l))
      decreases r + 1 - x
    {
      OneMoreRight(d, back, symbol, y, l, x - l);
      assert Write(Word(addr + Shl(x, Shift(d))), Bytes(d), symbol) == WriteOf(d, back, symbol, Pixel(x, y)) by {
        InRowAddress(d, back, x, y);
      }
      writes := writes + [Write(Word(addr + Shl(x, Shift(d))), Bytes(d), symbol)];
      x := x + 1;
    }
  }

  /** alt_up_video_dma_draw_hline. */
  method DrawHLine(d: Dma, symbol: U32, x0: U32, x1: U32, y: U32, back: bool) returns (writes: seq<Write>)
    requires Consistent(d) && x0 <= x1 < d.xRes && y < d.yRes
    ensures writes == WritesOf(d, back, symbol, RowPixels(y, x0, x1 - x0 + 1))
    ensures AreStores(writes, d, back, symbol, RowPixels(y, x0, x1 - x0 + 1))
  {
    var addr := Base(d, back);
    if d.xyMode {
      addr := Word(addr + Shl(y, d.yOffset));
    } else {
      addr := Word(addr + Shl(Word(y * d.xRes), d.xOffset));
    }
    ShiftedRowStart(d, back, y);
    writes := DrawRow(d, symbol, addr, x0, x1, back, y);
    WritesAreStores(d, back, symbol, RowPixels(y, x0, x1 - x0 + 1));
  }

  /** alt_up_video_dma_draw_vline. */
  method DrawVLine(d: Dma, symbol: U32, x: U32, y0: U32, y1: U32, back: bool) returns (writes: seq<Write>)
    requires Consistent(d) && x < d.xRes && y0 <= y1 < d.yRes
    ensures writes == WritesOf(d, back, symbol, ColumnPixels(x, y0, y1 - y0 + 1))
    ensures AreStores(writes, d, back, symbol, ColumnPixels(x, y0, y1 - y0 + 1))
  {
    var addr := Word(Base(d, back) + Shl(x, d.xOffset));
    var y_inc := if d.xyMode then Shl(1, d.yOffset) else Shl(d.xRes, d.xOffset);
    ColumnStart(d, back, x, y0, y_inc);
    addr := Word(addr + Word(y0 * y_inc));
    writes := DrawColumn(d, symbol, addr, y_inc, y0, y1, back, x);
    WritesAreStores(d, back, symbol, ColumnPixels(x, y0, y1 - y0 + 1));
  }

  /** Its loop. */
  method DrawColumn(d: Dma, symbol: U32, addr: U32, y_inc: U32, y0: U32, y1: U32, ghost back: bool, ghost x: nat)
    returns (writes: seq<Write>)
    requires Consistent(d) && x < d.xRes && y0 <= y1 < d.yRes
    requires y_inc == Word(Stride(d)) && addr == Place(d, back, x, y0)
    ensures writes == WritesOf(d, back, symbol, ColumnPixels(x, y0, y1 - y0 + 1))
  {
    var offset: U32 := 0;
    writes := [];
    var y := y0;
    while y <= y1
      invariant y0 <= y <= y1 + 1
      invariant Word(addr + offset) == Place(d, back, x, y)
      invariant writes == WritesOf(d, back, symbol, ColumnPixels(x, y0, y - y0))
      decreases y1 + 1 - y
    {
      ColumnTurn(d, back, symbol, x, y0, y, addr, offset, y_inc);
      writes := writes + [Write(Word(addr + offset), Bytes(d), symbol)];
      offset := Word(offset + y_inc);
      y := y + 1;
    }
  }

  lemma ColumnTurn(d: Dma, back: bool, symbol: U32, x: nat, t: nat, y: nat, addr: U32, offset: U32, y_inc: U32)
    requires Consistent(d) && x < d.xRes && t <= y < d.yRes
    requires y_inc == Word(Stride(d)) && Word(addr + offset) == Place(d, back, x, y)
    ensures Word(addr + Word(offset + y_inc)) == Place(d, back, x, y + 1)
    ensures WritesOf(d, back, symbol, ColumnPixels(x, t, y + 1 - t))
         == WritesOf(d, back, symbol, ColumnPixels(x, t, y - t)) + [Write(Word(addr + offset), Bytes(d), symbol)]
  {
    InRowAddress(d, back, x, y);
    ColumnStep(d, back, x, y, addr, offset, y_inc);
    OneMoreBelow(d, back, symbol, x, t, y - t);
  }

  lemma OneMoreBelow(d: Dma, back: bool, symbol: U32, x: nat, t: nat, n: nat)
    ensures WritesOf(d, back, symbol, ColumnPixels(x, t, n + 1))
         == WritesOf(d, back, symbol, ColumnPixels(x, t, n)) + [WriteOf(d, back, symbol, Pixel(x, t + n))]
  { }

  lemma OneMoreRight(d: Dma, back: bool, symbol: U32, y: nat, l: nat, n: nat)
    ensures WritesOf(d, back, symbol, RowPixels(y, l, n + 1))
         == WritesOf(d, back, symbol, RowPixels(y, l, n)) + [WriteOf(d, back, symbol, Pixel(l + n, y))]
  { }

  lemma ColumnStart(d: Dma, back: bool, x: nat, y: nat, y_inc: U32)
    requires y_inc == Word(Stride(d))
    ensures Word(Word(Base(d, back) + Shl(x, d.xOffset)) + Word(y * y_inc)) == Place(d, back, x, y)
  {
    FirstRowStart(d, back, y, y_inc);
    Reordered(Base(d, back), Shl(x, d.xOffset), Word(y * y_inc));
  }

  lemma ColumnStep(d: Dma, back: bool, x: nat, y: nat, addr: U32, offset: U32, y_inc: U32)
    requires y_inc == Word(Stride(d)) && Word(addr + offset) == Place(d, back, x, y)
    ensures Word(addr + Word(offset + y_inc)) == Place(d, back, x, y + 1)
  {
    NextRowStart(d, back, y, y_inc);
    BothStep(addr, offset, RowStart(d, back, y), Shl(x, d.xOffset), y_inc);
  }

  /** The filling loops of alt_up_video_dma_draw_box over the rows. */
  method FillBox(d: Dma, symbol: U32, l_x: U32, t_y: U32, r_x: U32, b_y: U32, back: bool) returns (writes: seq<Write>)
    requires Consistent(d) && l_x <= r_x < d.xRes && t_y <= b_y < d.yRes
    ensures writes == WritesOf(d, back, symbol, BoxPixels(l_x, t_y, r_x - l_x + 1, b_y - t_y + 1))
    ensures AreStores(writes, d, back, symbol, BoxPixels(l_x, t_y, r_x - l_x + 1, b_y - t_y + 1))
  {
    hide WritesOf, Word, AreStores;
    var addr := Base(d, back);
    var step: U32;
    if d.xyMode {
      addr := Word(addr + Shl(t_y, d.yOffset));
      step := Shl(1, d.yOffset);
      ShiftedRowStart(d, back, t_y);
    } else {
      step := Shl(d.xRes, Shift(d));
      addr := Word(addr + Word(t_y * step));
      FirstRowStart(d, back, t_y, step);
    }
    ghost var w := r_x - l_x + 1;
    writes := [];
    var y := t_y;
    while y <= b_y
      invariant t_y <= y <= b_y + 1 && addr == RowStart(d, back, y)
      invariant writes == WritesOf(d, back, symbol, BoxPixels(l_x, t_y, w, y - t_y))
      decreases b_y + 1 - y
    {
      var row := DrawRow(d, symbol, addr, l_x, r_x, back, y);
      WritesOfBoth(d, back, symbol, BoxPixels(l_x, t_y, w, y - t_y), RowPixels(y, l_x, w));
      writes := writes + row;
      NextRowStart(d, back, y, step);
      addr := Word(addr + step);
      y := y + 1;
    }
    BoxStores(d, back, symbol, Box(l_x, t_y, w, b_y - t_y + 1));
  }

  /** alt_up_video_dma_draw_rectangle. */
  method DrawRectangle(d: Dma, symbol: U32, x0: U32, y0: U32, x1: U32, y1: U32, back: bool) returns (writes: seq<Write>)
    requires Consistent(d) && x0 <= x1 < d.xRes && y0 <= y1 < d.yRes
    ensures writes == WritesOf(d, back, symbol, Perimeter(Box(x0, y0, x1 - x0 + 1, y1 - y0 + 1)))
    ensures AreStores(writes, d, back, symbol, Perimeter(Box(x0, y0, x1 - x0 + 1, y1 - y0 + 1)))
  {
    hide WritesOf, PixelAddress, AreStores;
    var top := DrawHLine(d, symbol, x0, x1, y0, back);
    var bottom := DrawHLine(d, symbol, x0, x1, y1, back);
    var left := DrawVLine(d, symbol, x0, y0, y1, back);
    var right := DrawVLine(d, symbol, x1, y0, y1, back);
    writes := top + bottom + left + right;
    var w, n := x1 - x0 + 1, y1 - y0 + 1;
    WritesOfFour(d, back, symbol, RowPixels(y0, x0, w), RowPixels(y1, x0, w),
                 ColumnPixels(x0, y0, n), ColumnPixels(x1, y0, n));
    PerimeterStores(d, back, symbol, Box(x0, y0, w, n));
  }

  lemma WritesOfFour(d: Dma, back: bool, symbol: U32, a: seq<Pixel>, b: seq<Pixel>, c: seq<Pixel>, e: seq<Pixel>)
    ensures WritesOf(d, back, symbol, a + b + c + e)
         == WritesOf(d, back, symbol, a) + WritesOf(d, back, symbol, b)
            + WritesOf(d, back, symbol, c) + WritesOf(d, back, symbol, e)
  {
    WritesOfBoth(d, back, symbol, a, b);
    WritesOfBoth(d, back, symbol, a + b, c);
    WritesOfBoth(d, back, symbol, a + b + c, e);
  }

  /** The four sides of a box. */
  function Perimeter(box: Box): seq<Pixel>
    requires box.Box? && box.w > 0 && box.n > 0
  {
    RowPixels(box.t, box.l, box.w) + RowPixels(box.t + box.n - 1, box.l, box.w)
    + ColumnPixels(box.l, box.t, box.n) + ColumnPixels(box.l + box.w - 1, box.t, box.n)
  }

  /** They are the pixels of the box that lie on its border. */
  lemma PerimeterIs(box: Box)
    requires box.Box? && box.w > 0 && box.n > 0
    ensures forall p :: p in Perimeter(box) <==>
              && box.l <= p.x < box.l + box.w && box.t <= p.y < box.t + box.n
              && (p.x == box.l || p.x == box.l + box.w - 1 || p.y == box.t || p.y == box.t + box.n - 1)
  {
    var b, r := box.t + box.n - 1, box.l + box.w - 1;
    forall p ensures p in Perimeter(box) <==>
              && box.l <= p.x <= r && box.t <= p.y <= b
              && (p.x == box.l || p.x == r || p.y == box.t || p.y == b)
    {
      if box.l <= p.x <= r {
        assert RowPixels(p.y, box.l, box.w)[p.x - box.l] == p;
      }
      if box.t <= p.y <= b {
        assert ColumnPixels(p.x, box.t, box.n)[p.y - box.t] == p;
      }
    }
  }

  predicate BoxOnScreen(d: Dma, box: Box) {
    box.Box? && box.w > 0 && box.n > 0 && box.l + box.w <= d.xRes && box.t + box.n <= d.yRes
  }

  lemma BoxStores(d: Dma, back: bool, symbol: U32, box: Box)
    requires Consistent(d) && BoxOnScreen(d, box)
    ensures AreStores(WritesOf(d, back, symbol, PixelsOf(box)), d, back, symbol, PixelsOf(box))
  {
    hide Consistent, AreStores, WritesOf;
    BoxPixelsAre(box.l, box.t, box.w, box.n);
    var pixels := PixelsOf(box);
    forall i | 0 <= i < |pixels| ensures OnScreen(d, pixels[i]) { assert pixels[i] in pixels; }
    WritesAreStores(d, back, symbol, pixels);
  }

  lemma PerimeterStores(d: Dma, back: bool, symbol: U32, box: Box)
    requires Consistent(d) && BoxOnScreen(d, box)
    ensures AreStores(WritesOf(d, back, symbol, Perimeter(box)), d, back, symbol, Perimeter(box))
  {
    hide Consistent, AreStores, WritesOf;
    PerimeterIs(box);
    var pixels := Perimeter(box);
    forall i | 0 <= i < |pixels| ensures OnScreen(d, pixels[i]) { assert pixels[i] in pixels; }
    WritesAreStores(d, back, symbol, pixels);
  }

  /** alt_up_video_dma_draw_box: it fails, and writes nothing, when no pixel of the box is on the screen. */
  method DrawBox(d: Dma, symbol: U32, x0: U32, y0: U32, x1: U32, y1: U32, back: bool, fill: bool)
    returns (ok: bool, writes: seq<Write>)
    requires Consistent(d)
    ensures var box := Clipped(d, x0, y0, x1, y1);
            && ok == box.Box?
            && (!ok ==> writes == [])
            && (ok && fill ==> writes == WritesOf(d, back, symbol, PixelsOf(box)))
            && (ok && !fill ==> writes == WritesOf(d, back, symbol, Perimeter(box)))
            && (ok ==> AreStores(writes, d, back, symbol, if fill then PixelsOf(box) else Perimeter(box)))
  {
    hide WritesOf, AreStores, Perimeter, BoxPixels;
    var l_x, r_x, t_y, b_y := x0, x1, y0, y1;
    var temp;
    if l_x > r_x {
      temp := l_x;
      l_x := r_x;
      r_x := temp;
    }
    if t_y > b_y {
      temp := t_y;
      t_y := b_y;
      b_y := temp;
    }
    if l_x >= d.xRes || t_y >= d.yRes {
      return false, [];
    }
    if r_x >= d.xRes {
      r_x := d.xRes - 1;
    }
    if b_y >= d.yRes {
      b_y := d.yRes - 1;
    }
    ok := true;
    assert Clipped(d, x0, y0, x1, y1) == Box(l_x, t_y, r_x - l_x + 1, b_y - t_y + 1);
    if !fill {
      writes := DrawRectangle(d, symbol, l_x, t_y, r_x, b_y, back);
    } else {
      writes := FillBox(d, symbol, l_x, t_y, r_x, b_y, back);
    }
  }

  /** alt_up_video_dma_draw: the boundary check and one store. */
  method DrawPixel(d: Dma, symbol: U32, x: U32, y: U32, back: bool) returns (ok: bool, writes: seq<Write>)
    ensures ok == OnScreen(d, Pixel(x, y))
    ensures writes == if ok then WritesOf(d, back, symbol, [Pixel(x, y)]) else []
    ensures ok && Consistent(d) ==> AreStores(writes, d, back, symbol, [Pixel(x, y)])
  {
    if x >= d.xRes || y >= d.yRes {
      return false, [];
    }
    ok := true;
    writes := [Write(Word(Base(d, back) + Offset(d, Masked(x, d.xBits), Masked(y, d.yBits))), Bytes(d), symbol)];
    if Consistent(d) { WritesAreStores(d, back, symbol, [Pixel(x, y)]); }
  }

  /** alt_up_video_dma_screen_fill. */
  method ScreenFill(d: Dma, symbol: U32, back: bool) returns (writes: seq<Write>)
    requires Consistent(d) && FitsMemory(d)
    ensures |writes| == d.yRes * d.xRes
    ensures forall p | OnScreen(d, p) :: exists i :: 0 <= i < |writes| && IsStore(writes[i], d, back, symbol, p)
    ensures forall i, j | 0 <= i < j < |writes| :: writes[i].addr != writes[j].addr
  {
    hide IsStore;
    ScreenFillCovers(d, back, symbol);
    forall p | OnScreen(d, p) ensures IsStore(WriteOf(d, back, symbol, p), d, back, symbol, p) {
      StoreIs(d, back, symbol, p);
    }
    var ok;
    ok, writes := DrawBox(d, symbol, 0, 0, d.xRes, d.yRes, back, true);
    assert !ok ==> d.xRes == 0 || d.yRes == 0;
  }
}
