/**
 The blocks along the edges of the picture whose averages drive the LEDs, for every picture
 size and every number of LEDs the arrays have room for. Corner blocks belong to the left and
 right edges and take the remainders of the divisions.
 */
module EdgeBlocks {
  import opened Basics
  import opened Arithmetic

  /** Blocks an `edge` has room for. */
  const MAX_LEDS := 50

  datatype Block = Block(id: nat, X: U32, Y: U32, Width: U32, Height: U32)

  datatype Frame = Frame(X: U32, Y: U32, Width: U32, Height: U32)

  /** The fields of an `edge` beside its blocks and its size. */
  datatype Area = Area(X: U32, Y: U32, Width: U32, Height: U32, numLeds: nat)

  /** LEDSTOP, LEDSBOTTOM, LEDSLEFT and LEDSRIGHT. */
  datatype Leds = Leds(top: nat, bottom: nat, left: nat, right: nat)
  {
    function Total(): nat { top + bottom + left + right }
  }

  /** Both side edges have two corners; the rest is what fits the arrays. */
  predicate Allowed(n: Leds) {
    n.top <= MAX_LEDS && n.bottom <= MAX_LEDS && 2 <= n.left <= MAX_LEDS && 2 <= n.right <= MAX_LEDS
  }

  // ---------------------------------------------------------------- the blocks

  lemma PartsFit(total: nat, part: nat, n: nat, m: nat)
    requires 0 < m && n <= m && part == total / m
    ensures Times(n, part) <= total
  {
    TimesGrows(n, m, part);
    TimesIs(m, part);
    assert total == m * part + total % m;
  }

  /** One dimension of the picture: equal parts between a first and a last corner. */
  datatype Side = Side(part: U32, all: U32, first: U32, last: U32)

  predicate IsSide(d: Side, total: U32, n: nat) {
    d.all == Times(n, d.part) && d.first == (total - d.all) / 2 && d.last == total - d.all - d.first
  }

  /** `n` parts, each the `m`-th part of `total`, with two corners for the rest. */
  function SideOf(total: U32, n: nat, m: nat): (d: Side)
    requires 0 < m && n <= m
    ensures IsSide(d, total, n) && d.part == total / m
  {
    var part := total / m;
    PartsFit(total, part, n, m);
    var all := Times(n, part);
    var first := (total - all) / 2;
    Side(part, all, first, total - all - first)
  }

  datatype Sides = Sides(top: Side, bottom: Side, left: Side, right: Side)

  /** Along the top and the bottom the corners come on top of the LEDs, along the sides they are among them. */
  function SidesOf(n: Leds, f: Frame): Sides
    requires Allowed(n)
  {
    Sides(SideOf(f.Width, n.top, n.top + 2), SideOf(f.Width, n.bottom, n.bottom + 2),
          SideOf(f.Height, n.left - 2, n.left), SideOf(f.Height, n.right - 2, n.right))
  }

  function TopBlock(n: Leds, f: Frame, d: Sides, size: U32, i: nat): Block {
    Block(n.left + i, Word(f.X + d.top.first + Times(i, d.top.part)), f.Y, d.top.part, size)
  }

  function BottomBlock(n: Leds, f: Frame, d: Sides, size: U32, i: nat): Block
    requires i < n.bottom
  {
    Block(n.Total() - i - 1, Word(f.X + d.bottom.first + Times(i, d.bottom.part)),
          Word(f.Y + f.Height - size), d.bottom.part, size)
  }

  function LeftBlock(n: Leds, f: Frame, d: Sides, size: U32, i: nat): Block
    requires i < n.left && 2 <= n.left
  {
    if i == 0 then
      Block(n.left - 1, f.X, f.Y, d.top.first, d.left.first)
    else if i == n.left - 1 then
      Block(0, f.X, Word(f.Y + d.left.first + Times(i - 1, d.left.part)), d.bottom.first, d.left.last)
    else
      Block(n.left - i - 1, f.X, Word(f.Y + d.left.first + Times(i - 1, d.left.part)), size, d.left.part)
  }

  function RightBlock(n: Leds, f: Frame, d: Sides, size: U32, i: nat): Block
    requires i < n.right && 2 <= n.right
  {
    if i == 0 then
      Block(n.left + n.top, Word(f.X + d.top.first + d.top.all), f.Y, d.top.last, d.right.first)
    else if i == n.right - 1 then
      Block(n.left + n.top + i, Word(f.X + d.bottom.first + d.bottom.all),
            Word(f.Y + d.right.first + Times(i - 1, d.right.part)),
            d.bottom.last, d.right.last)
    else
      Block(n.left + n.top + i, Word(f.X + f.Width - size),
            Word(f.Y + d.right.first + Times(i - 1, d.right.part)), size, d.right.part)
  }

  // ---------------------------------------------------------------- tilings

  /** The sum of the first `k` lengths. */
  function Prefix(lengths: seq<U32>, k: nat): nat
    requires k <= |lengths|
  {
    if k == 0 then 0 else Prefix(lengths, k - 1) + lengths[k - 1]
  }

  /** Intervals that follow each other from `from` on and together are `total` long. */
  predicate Tiles(starts: seq<U32>, lengths: seq<U32>, from: U32, total: nat) {
    && |starts| == |lengths|
    && (forall k | 0 <= k < |starts| :: starts[k] == Word(from + Prefix(lengths, k)))
    && Prefix(lengths, |lengths|) == total
  }

  /** In a tiling every place lies in one interval, */
  lemma {:induction false} PlaceInOne(lengths: seq<U32>, k: nat, place: nat) returns (i: nat)
    requires k <= |lengths| && place < Prefix(lengths, k)
    ensures i < k && Prefix(lengths, i) <= place < Prefix(lengths, i + 1)
  {
    if place >= Prefix(lengths, k - 1) { i := k - 1; } else { i := PlaceInOne(lengths, k - 1, place); }
  }

  lemma {:induction false} PrefixGrows(lengths: seq<U32>, j: nat, k: nat)
    requires j <= k <= |lengths|
    ensures Prefix(lengths, j) <= Prefix(lengths, k)
  {
    if j < k { PrefixGrows(lengths, j, k - 1); }
  }

  /** and in no other. */
  lemma PlaceInOnlyOne(lengths: seq<U32>, i: nat, j: nat, place: nat)
    requires i < |lengths| && j < |lengths|
    requires Prefix(lengths, i) <= place < Prefix(lengths, i + 1)
    requires Prefix(lengths, j) <= place < Prefix(lengths, j + 1)
    ensures i == j
  {
    if i < j { PrefixGrows(lengths, i + 1, j); }
    if j < i { PrefixGrows(lengths, j + 1, i); }
  }

  /** A corner, `n` equal parts and the other corner. */
  predicate EvenLengths(lengths: seq<U32>, first: nat, part: nat, n: nat, last: nat) {
    && |lengths| == n + 2 && lengths[0] == first && lengths[n + 1] == last
    && forall k | 1 <= k <= n :: lengths[k] == part
  }

  lemma {:induction false} EvenPrefix(lengths: seq<U32>, first: nat, part: nat, n: nat, last: nat, k: nat)
    requires EvenLengths(lengths, first, part, n, last) && k <= n
    ensures Prefix(lengths, k + 1) == first + Times(k, part)
  {
    if k > 0 {
      EvenPrefix(lengths, first, part, n, last, k - 1);
    } else {
      assert Prefix(lengths, 0) == 0;
    }
  }

  lemma EvenStart(lengths: seq<U32>, from: U32, first: nat, part: nat, n: nat, last: nat, k: nat)
    requires EvenLengths(lengths, first, part, n, last) && k <= n + 1
    ensures Word(from + Prefix(lengths, k)) == if k == 0 then from else Word(from + first + Times(k - 1, part))
  {
    if k > 0 { EvenPrefix(lengths, first, part, n, last, k - 1); }
  }

  lemma EvenTotal(lengths: seq<U32>, total: U32, d: Side, n: nat)
    requires IsSide(d, total, n) && EvenLengths(lengths, d.first, d.part, n, d.last)
    ensures Prefix(lengths, |lengths|) == total
  {
    EvenPrefix(lengths, d.first, d.part, n, d.last, n);
  }

  lemma EvenTiles(starts: seq<U32>, lengths: seq<U32>, from: U32, total: U32, d: Side, n: nat)
    requires IsSide(d, total, n) && EvenLengths(lengths, d.first, d.part, n, d.last) && |starts| == n + 2
    requires starts[0] == from && forall k | 1 <= k <= n + 1 :: starts[k] == Word(from + d.first + Times(k - 1, d.part))
    ensures Tiles(starts, lengths, from, total)
  {
    EvenTotal(lengths, total, d, n);
    forall k | 0 <= k < |starts| ensures starts[k] == Word(from + Prefix(lengths, k)) {
      EvenStart(lengths, from, d.first, d.part, n, d.last, k);
    }
  }

  // ---------------------------------------------------------------- the four edges

  /** The blocks of a side, from the top down. */
  ghost predicate IsLeft(blocks: seq<Block>, n: Leds, f: Frame, d: Sides, size: U32) {
    Allowed(n) && |blocks| == n.left && forall i | 0 <= i < n.left :: blocks[i] == LeftBlock(n, f, d, size, i)
  }

  ghost predicate IsRight(blocks: seq<Block>, n: Leds, f: Frame, d: Sides, size: U32) {
    Allowed(n) && |blocks| == n.right && forall i | 0 <= i < n.right :: blocks[i] == RightBlock(n, f, d, size, i)
  }

  lemma LeftCorners(blocks: seq<Block>, n: Leds, f: Frame, d: Sides, size: U32)
    requires IsLeft(blocks, n, f, d, size)
    ensures blocks[0].Width == d.top.first && blocks[n.left - 1].Width == d.bottom.first
  { }

  /** The blocks of the top and the bottom, from left to right. */
  ghost predicate IsTop(blocks: seq<Block>, n: Leds, f: Frame, d: Sides, size: U32) {
    Allowed(n) && |blocks| == n.top && forall i | 0 <= i < n.top :: blocks[i] == TopBlock(n, f, d, size, i)
  }

  ghost predicate IsBottom(blocks: seq<Block>, n: Leds, f: Frame, d: Sides, size: U32) {
    Allowed(n) && |blocks| == n.bottom && forall i | 0 <= i < n.bottom :: blocks[i] == BottomBlock(n, f, d, size, i)
  }

  /** All blocks of a picture; the sizes are the depths of the edges. */
  datatype Blocks = Blocks(left: seq<Block>, top: seq<Block>, right: seq<Block>, bottom: seq<Block>)

  ghost predicate AreBlocks(b: Blocks, n: Leds, f: Frame, leftSize: U32, topSize: U32, rightSize: U32,
                            bottomSize: U32) {
    && Allowed(n)
    && IsLeft(b.left, n, f, SidesOf(n, f), leftSize) && IsTop(b.top, n, f, SidesOf(n, f), topSize)
    && IsRight(b.right, n, f, SidesOf(n, f), rightSize) && IsBottom(b.bottom, n, f, SidesOf(n, f), bottomSize)
  }

  function Xs(blocks: seq<Block>): (s: seq<U32>)
    ensures |s| == |blocks| && forall i | 0 <= i < |s| :: s[i] == blocks[i].X
  {
    seq(|blocks|, i requires 0 <= i < |blocks| => blocks[i].X)
  }

  function Ys(blocks: seq<Block>): (s: seq<U32>)
    ensures |s| == |blocks| && forall i | 0 <= i < |s| :: s[i] == blocks[i].Y
  {
    seq(|blocks|, i requires 0 <= i < |blocks| => blocks[i].Y)
  }

  function Widths(blocks: seq<Block>): (s: seq<U32>)
    ensures |s| == |blocks| && forall i | 0 <= i < |s| :: s[i] == blocks[i].Width
  {
    seq(|blocks|, i requires 0 <= i < |blocks| => blocks[i].Width)
  }

  function Heights(blocks: seq<Block>): (s: seq<U32>)
    ensures |s| == |blocks| && forall i | 0 <= i < |s| :: s[i] == blocks[i].Height
  {
    seq(|blocks|, i requires 0 <= i < |blocks| => blocks[i].Height)
  }

  lemma LeftColumn(left: seq<Block>, n: Leds, f: Frame, d: Sides, size: U32)
    requires IsLeft(left, n, f, d, size) && IsSide(d.left, f.Height, n.left - 2)
    ensures Tiles(Ys(left), Heights(left), f.Y, f.Height)
  {
    hide Tiles, IsSide, Word, Times;
    EvenTiles(Ys(left), Heights(left), f.Y, f.Height, d.left, n.left - 2);
  }

  lemma RightColumn(right: seq<Block>, n: Leds, f: Frame, d: Sides, size: U32)
    requires IsRight(right, n, f, d, size) && IsSide(d.right, f.Height, n.right - 2)
    ensures Tiles(Ys(right), Heights(right), f.Y, f.Height)
  {
    hide Tiles, IsSide, Word, Times;
    EvenTiles(Ys(right), Heights(right), f.Y, f.Height, d.right, n.right - 2);
  }

  /** A row of blocks with the corners of both sides. */
  function Row(corner: Block, blocks: seq<Block>, corner': Block): seq<Block> { [corner] + blocks + [corner'] }

  lemma AnyRow(corner: Block, blocks: seq<Block>, corner': Block, f: Frame, d: Side)
    requires IsSide(d, f.Width, |blocks|)
    requires corner.X == f.X && corner.Width == d.first
    requires corner'.X == Word(f.X + d.first + d.all) && corner'.Width == d.last
    requires forall i | 0 <= i < |blocks| ::
               blocks[i].X == Word(f.X + d.first + Times(i, d.part)) && blocks[i].Width == d.part
    ensures var row := Row(corner, blocks, corner'); Tiles(Xs(row), Widths(row), f.X, f.Width)
  {
    var row, n := Row(corner, blocks, corner'), |blocks|;
    forall k | 1 <= k <= n + 1 ensures Xs(row)[k] == Word(f.X + d.first + Times(k - 1, d.part)) {
      if k <= n { assert row[k] == blocks[k - 1]; }
    }
    forall k | 1 <= k <= n ensures Widths(row)[k] == d.part { assert row[k] == blocks[k - 1]; }
    EvenTiles(Xs(row), Widths(row), f.X, f.Width, d, n);
  }

  /**
   The blocks on the left follow each other and are together as high as the picture, and so are
   those on the right. The upper corners with the top blocks between them, and the lower
   corners with the bottom blocks between them, follow each other and are as wide as the picture.
   */
  lemma EdgesTile(b: Blocks, n: Leds, f: Frame, leftSize: U32, topSize: U32, rightSize: U32, bottomSize: U32)
    requires AreBlocks(b, n, f, leftSize, topSize, rightSize, bottomSize)
    ensures Tiles(Ys(b.left), Heights(b.left), f.Y, f.Height) && Tiles(Ys(b.right), Heights(b.right), f.Y, f.Height)
    ensures var row := Row(b.left[0], b.top, b.right[0]); Tiles(Xs(row), Widths(row), f.X, f.Width)
    ensures var row := Row(b.left[n.left - 1], b.bottom, b.right[n.right - 1]);
            Tiles(Xs(row), Widths(row), f.X, f.Width)
  {
    var d := SidesOf(n, f);
    LeftColumn(b.left, n, f, d, leftSize);
    RightColumn(b.right, n, f, d, rightSize);
    TopRow(b, n, f, d, leftSize, topSize, rightSize);
    BottomRow(b, n, f, d, leftSize, bottomSize, rightSize);
  }

  lemma TopRow(b: Blocks, n: Leds, f: Frame, d: Sides, leftSize: U32, topSize: U32, rightSize: U32)
    requires IsLeft(b.left, n, f, d, leftSize) && IsTop(b.top, n, f, d, topSize) && IsRight(b.right, n, f, d, rightSize)
    requires IsSide(d.top, f.Width, n.top)
    ensures var row := Row(b.left[0], b.top, b.right[0]); Tiles(Xs(row), Widths(row), f.X, f.Width)
  {
    AnyRow(b.left[0], b.top, b.right[0], f, d.top);
  }

  lemma BottomRow(b: Blocks, n: Leds, f: Frame, d: Sides, leftSize: U32, bottomSize: U32, rightSize: U32)
    requires IsLeft(b.left, n, f, d, leftSize) && IsBottom(b.bottom, n, f, d, bottomSize)
    requires IsRight(b.right, n, f, d, rightSize)
    requires IsSide(d.bottom, f.Width, n.bottom)
    ensures var row := Row(b.left[n.left - 1], b.bottom, b.right[n.right - 1]);
            Tiles(Xs(row), Widths(row), f.X, f.Width)
  {
    AnyRow(b.left[n.left - 1], b.bottom, b.right[n.right - 1], f, d.bottom);
  }

  // ---------------------------------------------------------------- where the blocks lie

  lemma WordBack(v: int, size: U32)
    ensures Word(Word(v - size) + size) == Word(v)
  { }

  lemma WordOn(v: nat, size: U32)
    ensures Word(Word(v) + size) == Word(v + size)
  { }

  /** Between the corners the blocks lie along the edge of the picture, as deep as the edge is said to be. */
  lemma BlocksLieAlong(b: Blocks, n: Leds, f: Frame, leftSize: U32, topSize: U32, rightSize: U32, bottomSize: U32)
    requires AreBlocks(b, n, f, leftSize, topSize, rightSize, bottomSize)
    ensures forall i | 0 < i < n.left - 1 :: b.left[i].X == f.X && b.left[i].Width == leftSize
    ensures forall i | 0 < i < n.right - 1 ::
              Word(b.right[i].X + b.right[i].Width) == Word(f.X + f.Width) && b.right[i].Width == rightSize
    ensures forall i | 0 <= i < n.top :: b.top[i].Y == f.Y && b.top[i].Height == topSize
    ensures forall i | 0 <= i < n.bottom ::
              Word(b.bottom[i].Y + b.bottom[i].Height) == Word(f.Y + f.Height) && b.bottom[i].Height == bottomSize
  {
    hide Word, Times, SideOf, SidesOf;
    WordBack(f.X + f.Width, rightSize);
    WordBack(f.Y + f.Height, bottomSize);
  }

  lemma LeftTouch(left: seq<Block>, n: Leds, f: Frame, d: Sides, size: U32)
    requires IsLeft(left, n, f, d, size) && IsSide(d.left, f.Height, n.left - 2)
    ensures left[0].X == f.X && left[0].Y == f.Y && left[n.left - 1].X == f.X
    ensures var c := left[n.left - 1]; Word(c.Y + c.Height) == Word(f.Y + f.Height)
  {
    hide Times, Word;
    assert left[n.left - 1] == LeftBlock(n, f, d, size, n.left - 1);
    WordOn(f.Y + d.left.first + d.left.all, d.left.last);
  }

  lemma RightTouch(right: seq<Block>, n: Leds, f: Frame, d: Sides, size: U32)
    requires IsRight(right, n, f, d, size) && IsSide(d.right, f.Height, n.right - 2)
    requires IsSide(d.top, f.Width, n.top) && IsSide(d.bottom, f.Width, n.bottom)
    ensures right[0].Y == f.Y
    ensures var c := right[n.right - 1]; Word(c.Y + c.Height) == Word(f.Y + f.Height)
    ensures forall c | c in [right[0], right[n.right - 1]] :: Word(c.X + c.Width) == Word(f.X + f.Width)
  {
    hide Times, Word;
    assert right[n.right - 1] == RightBlock(n, f, d, size, n.right - 1);
    WordOn(f.Y + d.right.first + d.right.all, d.right.last);
    WordOn(f.X + d.top.first + d.top.all, d.top.last);
    WordOn(f.X + d.bottom.first + d.bottom.all, d.bottom.last);
  }

  /** Each corner block touches both sides of the picture that meet in its corner. */
  lemma CornersTouch(b: Blocks, n: Leds, f: Frame, leftSize: U32, topSize: U32, rightSize: U32, bottomSize: U32)
    requires AreBlocks(b, n, f, leftSize, topSize, rightSize, bottomSize)
    ensures var c := b.left[0]; c.X == f.X && c.Y == f.Y
    ensures var c := b.left[n.left - 1]; c.X == f.X && Word(c.Y + c.Height) == Word(f.Y + f.Height)
    ensures var c := b.right[0]; Word(c.X + c.Width) == Word(f.X + f.Width) && c.Y == f.Y
    ensures var c := b.right[n.right - 1];
            Word(c.X + c.Width) == Word(f.X + f.Width) && Word(c.Y + c.Height) == Word(f.Y + f.Height)
  {
    hide Word;
    LeftTouch(b.left, n, f, SidesOf(n, f), leftSize);
    RightTouch(b.right, n, f, SidesOf(n, f), rightSize);
  }

  /** Two corners share what `n` parts leave of a length, the second one having the odd pixel. */
  ghost predicate ShareRest(first: nat, last: nat, total: nat, n: nat, part: nat) {
    first + last == total - n * part && first <= last <= first + 1
  }

  lemma CornersShareRest(d: Side, total: U32, n: nat)
    requires IsSide(d, total, n)
    ensures ShareRest(d.first, d.last, total, n, d.part)
  {
    TimesIs(n, d.part);
  }

  /** How large the blocks are along the edges. */
  lemma BlockSizes(b: Blocks, n: Leds, f: Frame, leftSize: U32, topSize: U32, rightSize: U32, bottomSize: U32)
    requires AreBlocks(b, n, f, leftSize, topSize, rightSize, bottomSize)
    ensures forall i | 0 < i < n.left - 1 :: b.left[i].Height == f.Height / n.left
    ensures forall i | 0 < i < n.right - 1 :: b.right[i].Height == f.Height / n.right
    ensures forall i | 0 <= i < n.top :: b.top[i].Width == f.Width / (n.top + 2)
    ensures forall i | 0 <= i < n.bottom :: b.bottom[i].Width == f.Width / (n.bottom + 2)
    ensures ShareRest(b.left[0].Height, b.left[n.left - 1].Height, f.Height, n.left - 2, f.Height / n.left)
    ensures ShareRest(b.right[0].Height, b.right[n.right - 1].Height, f.Height, n.right - 2, f.Height / n.right)
    ensures ShareRest(b.left[0].Width, b.right[0].Width, f.Width, n.top, f.Width / (n.top + 2))
    ensures ShareRest(b.left[n.left - 1].Width, b.right[n.right - 1].Width, f.Width, n.bottom, f.Width / (n.bottom + 2))
  {
    hide Times, Word, ShareRest, SideOf;
    var d := SidesOf(n, f);
    CornersShareRest(d.left, f.Height, n.left - 2);
    CornersShareRest(d.right, f.Height, n.right - 2);
    CornersShareRest(d.top, f.Width, n.top);
    CornersShareRest(d.bottom, f.Width, n.bottom);
  }

  // ---------------------------------------------------------------- the LEDs

  /** All blocks in the order of their LEDs: up the left side, along the top, down the right, back along the bottom. */
  function InLedOrder(b: Blocks): seq<Block> {
    Reversed(b.left) + b.top + b.right + Reversed(b.bottom)
  }

  function Reversed(s: seq<Block>): (r: seq<Block>)
    ensures |r| == |s| && forall i | 0 <= i < |r| :: r[i] == s[|s| - 1 - i]
  {
    seq(|s|, i requires 0 <= i < |s| => s[|s| - 1 - i])
  }

  /** Every LED has exactly one block: the block at place `i` around the picture has the number `i`. */
  lemma IdsAreLeds(b: Blocks, n: Leds, f: Frame, leftSize: U32, topSize: U32, rightSize: U32, bottomSize: U32)
    requires AreBlocks(b, n, f, leftSize, topSize, rightSize, bottomSize)
    ensures var all := InLedOrder(b);
            |all| == n.Total() && forall i | 0 <= i < |all| :: all[i].id == i
  { }

  // ---------------------------------------------------------------- the edges themselves

  datatype Areas = Areas(left: Area, top: Area, right: Area, bottom: Area)

  /** The area of each edge; that of the bottom edge is placed by the width of its blocks, and not of the picture. */
  function AreasOf(n: Leds, f: Frame, d: Sides, leftSize: U32, topSize: U32, rightSize: U32, bottomSize: U32): Areas
    requires IsSide(d.bottom, f.Width, n.bottom)
  {
    Areas(Area(f.X, f.Y, leftSize, f.Height, n.left),
          Area(f.X, f.Y, f.Width, topSize, n.top),
          Area(Word(f.X + f.Width - rightSize), f.Y, rightSize, f.Height, n.right),
          Area(Word(f.X + f.Width - d.bottom.all), Word(f.Y + f.Height - bottomSize),
               f.Width - d.bottom.all, bottomSize, n.bottom))
  }

  /**
   The areas of three edges span their side of the picture. That of the bottom edge starts as far from the
   right end of the picture as its blocks are wide together, and is as wide as its corners.
   */
  lemma AreasAre(n: Leds, f: Frame, leftSize: U32, topSize: U32, rightSize: U32, bottomSize: U32)
    requires Allowed(n)
    ensures var a := AreasOf(n, f, SidesOf(n, f), leftSize, topSize, rightSize, bottomSize).left;
            a.X == f.X && a.Y == f.Y && a.Width == leftSize && a.Height == f.Height && a.numLeds == n.left
    ensures var a := AreasOf(n, f, SidesOf(n, f), leftSize, topSize, rightSize, bottomSize).top;
            a.X == f.X && a.Y == f.Y && a.Width == f.Width && a.Height == topSize && a.numLeds == n.top
    ensures var a := AreasOf(n, f, SidesOf(n, f), leftSize, topSize, rightSize, bottomSize).right;
            && Word(a.X + a.Width) == Word(f.X + f.Width) && a.Y == f.Y
            && a.Width == rightSize && a.Height == f.Height && a.numLeds == n.right
    ensures var a := AreasOf(n, f, SidesOf(n, f), leftSize, topSize, rightSize, bottomSize).bottom;
            && Word(a.X + n.bottom * (f.Width / (n.bottom + 2))) == Word(f.X + f.Width)
            && Word(a.Y + a.Height) == Word(f.Y + f.Height)
            && a.Width == f.Width - n.bottom * (f.Width / (n.bottom + 2))
            && a.Height == bottomSize && a.numLeds == n.bottom
  {
    hide Times, Word, SideOf, Allowed, IsSide;
    WordBack(f.X + f.Width, rightSize);
    WordBack(f.Y + f.Height, bottomSize);
    WordBack(f.X + f.Width, SidesOf(n, f).bottom.all);
    BottomWidth(n, f);
  }

  lemma BottomWidth(n: Leds, f: Frame)
    requires Allowed(n)
    ensures SidesOf(n, f).bottom.all == n.bottom * (f.Width / (n.bottom + 2))
  {
    TimesIs(n.bottom, f.Width / (n.bottom + 2));
  }

  /** Two more parts than there are LEDs leave something for the right corner of every frame that is not empty. */
  lemma CornerHasWidth(total: U32, n: nat)
    ensures SideOf(total, n, n + 2).last == 0 <==> total == 0
  {
    hide Times;
    var part := total / (n + 2);
    Division(total, n + 2);
    TimesCommutes(part, n + 2);
    TimesAdd(2, n, part);
    TwoParts(part);
    TimesAtLeast(n, part);
  }

  lemma TwoParts(part: nat)
    ensures Times(2, part) == 2 * part
  {
    TimesIs(2, part);
  }

  /** The area of the bottom edge starts where its blocks do only in a frame without width. */
  lemma BottomAreaIs(b: Blocks, n: Leds, f: Frame, leftSize: U32, topSize: U32, rightSize: U32, bottomSize: U32)
    requires AreBlocks(b, n, f, leftSize, topSize, rightSize, bottomSize) && n.bottom > 0
    ensures AreasOf(n, f, SidesOf(n, f), leftSize, topSize, rightSize, bottomSize).bottom.X == b.bottom[0].X
            <==> f.Width == 0
  {
    hide Word, IsLeft, IsRight, IsTop;
    var d := SidesOf(n, f).bottom;
    assert Times(0, d.part) == 0;
    assert b.bottom[0].X == Word(f.X + d.first);
    assert f.Width - d.all == d.first + d.last;
    WordsDiffer(f.X + d.first, d.last);
    CornerHasWidth(f.Width, n.bottom);
  }

  lemma WordsDiffer(v: nat, d: U32)
    ensures Word(v + d) == Word(v) <==> d == 0
  { }

  // ---------------------------------------------------------------- the code

  /** The `frameBlock` arrays of the four edges, and their sizes. */
  class Edges {
    const n: Leds
    const leftEdge: array<Block>
    const topEdge: array<Block>
    const rightEdge: array<Block>
    const bottomEdge: array<Block>
    var leftSize: U32
    var topSize: U32
    var rightSize: U32
    var bottomSize: U32
    var leftArea: Area
    var topArea: Area
    var rightArea: Area
    var bottomArea: Area

    /** The global variables, with arrays of any contents. */
    constructor (n: Leds, leftSize: U32, topSize: U32, rightSize: U32, bottomSize: U32)
      requires Allowed(n)
      ensures Valid() && fresh(leftEdge) && fresh(topEdge) && fresh(rightEdge) && fresh(bottomEdge)
      ensures this.n == n && this.leftSize == leftSize && this.topSize == topSize
      ensures this.rightSize == rightSize && this.bottomSize == bottomSize
    {
      this.n := n;
      this.leftSize, this.topSize, this.rightSize, this.bottomSize := leftSize, topSize, rightSize, bottomSize;
      var none := Area(0, 0, 0, 0, 0);
      leftArea, topArea, rightArea, bottomArea := none, none, none, none;
      leftEdge := new Block[MAX_LEDS](_ => Block(0, 0, 0, 0, 0));
      topEdge := new Block[MAX_LEDS](_ => Block(0, 0, 0, 0, 0));
      rightEdge := new Block[MAX_LEDS](_ => Block(0, 0, 0, 0, 0));
      bottomEdge := new Block[MAX_LEDS](_ => Block(0, 0, 0, 0, 0));
    }

    ghost predicate Valid() {
      && Allowed(n)
      && leftEdge.Length == topEdge.Length == rightEdge.Length == bottomEdge.Length == MAX_LEDS
      && leftEdge != topEdge && leftEdge != rightEdge && leftEdge != bottomEdge
      && topEdge != rightEdge && topEdge != bottomEdge && rightEdge != bottomEdge
    }

    method CalculateTop(f: Frame, topBlockSize: U32, ghost d: Sides)
      requires Valid() && IsSide(d.top, f.Width, n.top) && topBlockSize == d.top.part
      modifies topEdge, `topArea
      ensures IsTop(topEdge[..n.top], n, f, d, topSize) && topArea == Area(f.X, f.Y, f.Width, topSize, n.top)
    {
      hide Product, Word;
      topArea := Area(f.X, f.Y, f.Width, topSize, n.top);
      for i := 0 to n.top
        modifies topEdge
        invariant forall k | 0 <= k < i :: topEdge[k] == TopBlock(n, f, d, topSize, k)
      {
        topEdge[i] := Block(n.left + i,
                            Word(f.X + (f.Width - Product(n.top, topBlockSize)) / 2 + Product(i, topBlockSize)),
                            topArea.Y, topBlockSize, topSize);
      }
    }

    /** One round of the loop over the left edge; `height` is that of its first block. */
    method LeftBlockAt(f: Frame, topBlockSize: U32, leftBlockSize: U32, bottomBlockSize: U32, height: U32, i: nat,
                       ghost d: Sides) returns (b: Block)
      requires Allowed(n) && i < n.left && (i > 0 ==> height == d.left.first)
      requires IsSide(d.left, f.Height, n.left - 2) && IsSide(d.top, f.Width, n.top)
      requires IsSide(d.bottom, f.Width, n.bottom)
      requires topBlockSize == d.top.part && leftBlockSize == d.left.part && bottomBlockSize == d.bottom.part
      ensures b == LeftBlock(n, f, d, leftSize, i)
    {
      hide Product, Times, Word;
      if i == 0 {
        b := Block(n.left - i - 1, f.X, f.Y, (f.Width - Product(n.top, topBlockSize)) / 2,
                   (f.Height - Product(n.left - 2, leftBlockSize)) / 2);
        return;
      }
      if i == n.left - 1 {
        b := Block(n.left - i - 1, f.X, Word(f.Y + height + Product(i - 1, leftBlockSize)),
                   (f.Width - Product(n.bottom, bottomBlockSize)) / 2,
                   f.Height - Product(n.left - 2, leftBlockSize) - height);
      } else {
        b := Block(n.left - i - 1, f.X, Word(f.Y + height + Product(i - 1, leftBlockSize)), leftSize, leftBlockSize);
      }
    }

    method CalculateLeft(f: Frame, topBlockSize: U32, leftBlockSize: U32, bottomBlockSize: U32, ghost d: Sides)
      requires Valid()
      requires IsSide(d.left, f.Height, n.left - 2) && IsSide(d.top, f.Width, n.top)
      requires IsSide(d.bottom, f.Width, n.bottom)
      requires topBlockSize == d.top.part && leftBlockSize == d.left.part && bottomBlockSize == d.bottom.part
      modifies leftEdge, `leftArea
      ensures IsLeft(leftEdge[..n.left], n, f, d, leftSize) && leftArea == Area(f.X, f.Y, leftSize, f.Height, n.left)
    {
      leftArea := Area(f.X, f.Y, leftSize, f.Height, n.left);
      for i := 0 to n.left
        modifies leftEdge
        invariant forall k | 0 <= k < i :: leftEdge[k] == LeftBlock(n, f, d, leftSize, k)
      {
        leftEdge[i] := LeftBlockAt(f, topBlockSize, leftBlockSize, bottomBlockSize, leftEdge[0].Height, i, d);
      }
    }

    method CalculateBottom(f: Frame, bottomBlockSize: U32, ghost d: Sides)
      requires Valid() && IsSide(d.bottom, f.Width, n.bottom) && bottomBlockSize == d.bottom.part
      modifies bottomEdge, `bottomArea
      ensures IsBottom(bottomEdge[..n.bottom], n, f, d, bottomSize)
      ensures bottomArea == Area(Word(f.X + f.Width - d.bottom.all), Word(f.Y + f.Height - bottomSize),
                                 f.Width - d.bottom.all, bottomSize, n.bottom)
    {
      hide Product;
      bottomArea := Area(Word(f.X + f.Width - Product(n.bottom, bottomBlockSize)), Word(f.Y + f.Height - bottomSize),
                         f.Width - Product(n.bottom, bottomBlockSize), bottomSize, n.bottom);
      for i := 0 to n.bottom
        modifies bottomEdge
        invariant forall k | 0 <= k < i :: bottomEdge[k] == BottomBlock(n, f, d, bottomSize, k)
      {
        bottomEdge[i] := Block(n.top + n.bottom + n.left + n.right - i - 1,
                               Word(f.X + (f.Width - Product(n.bottom, bottomBlockSize)) / 2
                                    + Product(i, bottomBlockSize)),
                               bottomArea.Y, bottomBlockSize, bottomSize);
      }
    }

    /** One round of the loop over the right edge; `top` and `bottom` are the widths of the left corners. */
    method RightBlockAt(f: Frame, topBlockSize: U32, bottomBlockSize: U32, rightBlockSize: U32,
                        top: U32, bottom: U32, height: U32, i: nat, ghost d: Sides) returns (b: Block)
      requires Allowed(n) && i < n.right && (i > 0 ==> height == d.right.first)
      requires top == d.top.first && bottom == d.bottom.first
      requires IsSide(d.right, f.Height, n.right - 2) && IsSide(d.top, f.Width, n.top)
      requires IsSide(d.bottom, f.Width, n.bottom)
      requires topBlockSize == d.top.part && rightBlockSize == d.right.part && bottomBlockSize == d.bottom.part
      ensures b == RightBlock(n, f, d, rightSize, i)
    {
      hide Product, Times, Word;
      if i == 0 {
        b := Block(n.left + n.top + i, Word(f.X + top + Product(n.top, topBlockSize)), f.Y,
                   f.Width - top - Product(n.top, topBlockSize), (f.Height - Product(n.right - 2, rightBlockSize)) / 2);
        return;
      }
      if i == n.right - 1 {
        b := Block(n.left + n.top + i, Word(f.X + bottom + Product(n.bottom, bottomBlockSize)),
                   Word(f.Y + height + Product(i - 1, rightBlockSize)),
                   f.Width - bottom - Product(n.bottom, bottomBlockSize),
                   f.Height - Product(n.right - 2, rightBlockSize) - height);
      } else {
        b := Block(n.left + n.top + i, Word(f.X + f.Width - rightSize),
                   Word(f.Y + height + Product(i - 1, rightBlockSize)), rightSize, rightBlockSize);
      }
    }

    method CalculateRight(f: Frame, topBlockSize: U32, bottomBlockSize: U32, rightBlockSize: U32, ghost d: Sides)
      requires Valid() && leftEdge[0].Width == d.top.first && leftEdge[n.left - 1].Width == d.bottom.first
      requires IsSide(d.right, f.Height, n.right - 2) && IsSide(d.top, f.Width, n.top)
      requires IsSide(d.bottom, f.Width, n.bottom)
      requires topBlockSize == d.top.part && rightBlockSize == d.right.part && bottomBlockSize == d.bottom.part
      modifies rightEdge, `rightArea
      ensures IsRight(rightEdge[..n.right], n, f, d, rightSize)
      ensures rightArea == Area(Word(f.X + f.Width - rightSize), f.Y, rightSize, f.Height, n.right)
    {
      rightArea := Area(Word(f.X + f.Width - rightSize), f.Y, rightSize, f.Height, n.right);
      for i := 0 to n.right
        modifies rightEdge
        invariant forall k | 0 <= k < i :: rightEdge[k] == RightBlock(n, f, d, rightSize, k)
      {
        rightEdge[i] := RightBlockAt(f, topBlockSize, bottomBlockSize, rightBlockSize,
                                     leftEdge[0].Width, leftEdge[n.left - 1].Width, rightEdge[0].Height, i, d);
      }
    }

    /** The four loops of calculateEdgeBlocks. */
    method CalculateAll(f: Frame, topBlockSize: U32, leftBlockSize: U32, bottomBlockSize: U32, rightBlockSize: U32,
                        ghost d: Sides)
      requires Valid()
      requires IsSide(d.left, f.Height, n.left - 2) && IsSide(d.right, f.Height, n.right - 2)
      requires IsSide(d.top, f.Width, n.top) && IsSide(d.bottom, f.Width, n.bottom)
      requires topBlockSize == d.top.part && leftBlockSize == d.left.part
      requires bottomBlockSize == d.bottom.part && rightBlockSize == d.right.part
      modifies leftEdge, topEdge, rightEdge, bottomEdge, `leftArea, `topArea, `rightArea, `bottomArea
      ensures IsLeft(leftEdge[..n.left], n, f, d, leftSize) && IsTop(topEdge[..n.top], n, f, d, topSize)
      ensures IsRight(rightEdge[..n.right], n, f, d, rightSize) && IsBottom(bottomEdge[..n.bottom], n, f, d, bottomSize)
      ensures Areas(leftArea, topArea, rightArea, bottomArea)
           == AreasOf(n, f, d, leftSize, topSize, rightSize, bottomSize)
    {
      hide IsLeft, IsTop, IsRight, IsBottom, IsSide, Word;
      CalculateTop(f, topBlockSize, d);
      CalculateLeft(f, topBlockSize, leftBlockSize, bottomBlockSize, d);
      CalculateBottom(f, bottomBlockSize, d);
      LeftCorners(leftEdge[..n.left], n, f, d, leftSize);
      assert leftEdge[0] == leftEdge[..n.left][0] && leftEdge[n.left - 1] == leftEdge[..n.left][n.left - 1];
      CalculateRight(f, topBlockSize, bottomBlockSize, rightBlockSize, d);
    }

    /** calculateEdgeBlocks. */
    method CalculateEdgeBlocks(f: Frame)
      requires Valid()
      modifies leftEdge, topEdge, rightEdge, bottomEdge, `leftArea, `topArea, `rightArea, `bottomArea
      ensures AreBlocks(Blocks(leftEdge[..n.left], topEdge[..n.top], rightEdge[..n.right], bottomEdge[..n.bottom]),
                        n, f, leftSize, topSize, rightSize, bottomSize)
      ensures Areas(leftArea, topArea, rightArea, bottomArea)
           == AreasOf(n, f, SidesOf(n, f), leftSize, topSize, rightSize, bottomSize)
    {
      ghost var d := SidesOf(n, f);
      var topBlockSize := f.Width / (n.top + 2);
      var leftBlockSize := f.Height / n.left;
      var bottomBlockSize := f.Width / (n.bottom + 2);
      var rightBlockSize := f.Height / n.right;
      CalculateAll(f, topBlockSize, leftBlockSize, bottomBlockSize, rightBlockSize, d);
    }
  }
}
