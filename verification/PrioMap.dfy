/**
 The two-level bitmaps of os_core.c: OSRdyGrp with OSRdyTbl, and OSEventGrp with OSEventTbl
 in every event. A map is read as the set of priorities whose bit is set, for both layouts:
 rows of 8 bits when OS_LOWEST_PRIO is at most 63, rows of 16 bits above.
 */
module PrioMap {
  import opened Words

  /** The largest OS_LOWEST_PRIO the kernel accepts. */
  const MAX_LOWEST_PRIO := 254

  /** Bits in a row and in the group word. */
  function Width(lowest: nat): nat { if lowest <= 63 then 8 else 16 }

  /** OS_RDY_TBL_SIZE and OS_EVENT_TBL_SIZE. */
  function Rows(lowest: nat): nat { if lowest <= 63 then lowest / 8 + 1 else lowest / 16 + 1 }

  function RowOf(lowest: nat, p: nat): nat { if lowest <= 63 then p / 8 else p / 16 }

  function ColOf(lowest: nat, p: nat): nat { if lowest <= 63 then p % 8 else p % 16 }

  /** Bit `x` of row `y` stands for this priority. */
  function PrioOf(lowest: nat, y: nat, x: nat): nat { if lowest <= 63 then 8 * y + x else 16 * y + x }

  /** How many bits of row `y` can be in use: the last row ends at OS_LOWEST_PRIO. */
  function RowWidth(lowest: nat, y: nat): nat {
    if y < RowOf(lowest, lowest) then Width(lowest) else ColOf(lowest, lowest) + 1
  }

  /** The first `n` rows are words of their width, and the group word has a bit for each that is not empty. */
  ghost predicate RowsOk(lowest: nat, grp: nat, tbl: seq<nat>, n: nat)
    requires n <= |tbl|
  {
    n == 0 ||
    (RowsOk(lowest, grp, tbl, n - 1)
     && tbl[n - 1] < Bit(RowWidth(lowest, n - 1))
     && (Has(grp, n - 1) <==> tbl[n - 1] != 0))
  }

  /** The group word has a bit for exactly the non-empty rows. */
  ghost predicate Valid(lowest: nat, grp: nat, tbl: seq<nat>) {
    && lowest <= MAX_LOWEST_PRIO
    && |tbl| == Rows(lowest)
    && grp < Bit(|tbl|)
    && RowsOk(lowest, grp, tbl, |tbl|)
  }

  lemma {:induction false} RowOk(lowest: nat, grp: nat, tbl: seq<nat>, n: nat, y: nat)
    requires y < n <= |tbl| && RowsOk(lowest, grp, tbl, n)
    ensures tbl[y] < Bit(RowWidth(lowest, y)) && (Has(grp, y) <==> tbl[y] != 0)
  {
    if y < n - 1 { RowOk(lowest, grp, tbl, n - 1, y); }
  }

  lemma {:induction false} RowsOkFrom(lowest: nat, grp: nat, tbl: seq<nat>, n: nat)
    requires n <= |tbl|
    requires forall y {:trigger tbl[y]} | 0 <= y < n ::
               tbl[y] < Bit(RowWidth(lowest, y)) && (Has(grp, y) <==> tbl[y] != 0)
    ensures RowsOk(lowest, grp, tbl, n)
  {
    if n > 0 { RowsOkFrom(lowest, grp, tbl, n - 1); }
  }

  ghost predicate Member(lowest: nat, tbl: seq<nat>, p: nat) {
    RowOf(lowest, p) < |tbl| && Has(tbl[RowOf(lowest, p)], ColOf(lowest, p))
  }

  /** The priorities below `n` whose bit is set. */
  ghost function MembersBelow(lowest: nat, tbl: seq<nat>, n: nat): set<nat> {
    if n == 0 then {}
    else if Member(lowest, tbl, n - 1) then MembersBelow(lowest, tbl, n - 1) + {n - 1}
    else MembersBelow(lowest, tbl, n - 1)
  }

  /** The set of priorities a map stands for. */
  ghost function Members(lowest: nat, tbl: seq<nat>): set<nat> {
    MembersBelow(lowest, tbl, lowest + 1)
  }

  lemma {:induction false} InMembersBelow(lowest: nat, tbl: seq<nat>, n: nat, p: nat)
    ensures p in MembersBelow(lowest, tbl, n) <==> p < n && Member(lowest, tbl, p)
  {
    if n > 0 { InMembersBelow(lowest, tbl, n - 1, p); }
  }

  lemma WidthIsEnough(lowest: nat, p: nat)
    requires p <= lowest <= MAX_LOWEST_PRIO
    ensures RowOf(lowest, p) < Rows(lowest) <= Width(lowest)
    ensures ColOf(lowest, p) < RowWidth(lowest, RowOf(lowest, p)) <= Width(lowest)
    ensures PrioOf(lowest, RowOf(lowest, p), ColOf(lowest, p)) == p
  { }

  lemma PrioOfRow(lowest: nat, y: nat, x: nat)
    requires x < Width(lowest)
    ensures RowOf(lowest, PrioOf(lowest, y, x)) == y && ColOf(lowest, PrioOf(lowest, y, x)) == x
  { }

  /** A priority's row and column: rows of 8 for an OS_LOWEST_PRIO of at most 63, of 16 above, and no row too many. */
  lemma LayoutIs(lowest: nat, p: nat)
    requires p <= lowest
    ensures var w := if lowest <= 63 then 8 else 16;
            && Width(lowest) == w
            && RowOf(lowest, p) * w + ColOf(lowest, p) == p && ColOf(lowest, p) < w
            && RowOf(lowest, p) < Rows(lowest)
            && (Rows(lowest) - 1) * w <= lowest < Rows(lowest) * w
  { }

  // ---------------------------------------------------------------- setting and clearing a bit

  /** `grp |= BitY; tbl[y] |= BitX`. */
  lemma Insert(lowest: nat, grp: nat, tbl: seq<nat>, p: nat)
    requires Valid(lowest, grp, tbl) && p <= lowest
    ensures RowOf(lowest, p) < |tbl|
    ensures var y, x := RowOf(lowest, p), ColOf(lowest, p);
            var tbl' := tbl[y := Or(tbl[y], Bit(x))];
            && Valid(lowest, Or(grp, Bit(y)), tbl')
            && Members(lowest, tbl') == Members(lowest, tbl) + {p}
  {
    WidthIsEnough(lowest, p);
    var y, x := RowOf(lowest, p), ColOf(lowest, p);
    var tbl' := tbl[y := Or(tbl[y], Bit(x))];
    BitGrows(y, |tbl|);
    OrWithin(grp, Bit(y), |tbl|);
    forall k {:trigger tbl'[k]} | 0 <= k < |tbl'|
      ensures tbl'[k] < Bit(RowWidth(lowest, k)) && (Has(Or(grp, Bit(y)), k) <==> tbl'[k] != 0)
    {
      RowOk(lowest, grp, tbl, |tbl|, k);
      HasOr(grp, Bit(y), k);
      HasBit(y, k);
      if k == y {
        RowIsSet(tbl[y], x);
        BitGrows(x, RowWidth(lowest, y));
        OrWithin(tbl[y], Bit(x), RowWidth(lowest, y));
      }
    }
    RowsOkFrom(lowest, Or(grp, Bit(y)), tbl', |tbl'|);
    forall q ensures q in Members(lowest, tbl') <==> q in Members(lowest, tbl) + {p} {
      if q >= 0 { InsertMember(lowest, tbl, p, q); }
    }
  }

  lemma RowIsSet(row: nat, x: nat)
    ensures Or(row, Bit(x)) != 0
  {
    HasOr(row, Bit(x), x);
    HasBit(x, x);
    HasZero(x);
  }

  lemma InsertMember(lowest: nat, tbl: seq<nat>, p: nat, q: nat)
    requires |tbl| == Rows(lowest) && p <= lowest <= MAX_LOWEST_PRIO
    ensures RowOf(lowest, p) < |tbl|
    ensures var y, x := RowOf(lowest, p), ColOf(lowest, p);
            q in Members(lowest, tbl[y := Or(tbl[y], Bit(x))]) <==> q in Members(lowest, tbl) || q == p
  {
    hide Rows;
    WidthIsEnough(lowest, p);
    var y, x := RowOf(lowest, p), ColOf(lowest, p);
    InMembersBelow(lowest, tbl, lowest + 1, q);
    InMembersBelow(lowest, tbl[y := Or(tbl[y], Bit(x))], lowest + 1, q);
    HasOr(tbl[y], Bit(x), ColOf(lowest, q));
    HasBit(x, ColOf(lowest, q));
  }

  /** `tbl[y] &= ~BitX; if (tbl[y] == 0) grp &= ~BitY`. */
  lemma Remove(lowest: nat, grp: nat, tbl: seq<nat>, p: nat)
    requires Valid(lowest, grp, tbl) && p <= lowest
    ensures RowOf(lowest, p) < |tbl|
    ensures var y, x := RowOf(lowest, p), ColOf(lowest, p);
            var tbl' := tbl[y := AndNot(tbl[y], Bit(x))];
            && Valid(lowest, if tbl'[y] == 0 then AndNot(grp, Bit(y)) else grp, tbl')
            && Members(lowest, tbl') == Members(lowest, tbl) - {p}
  {
    WidthIsEnough(lowest, p);
    var y, x := RowOf(lowest, p), ColOf(lowest, p);
    var tbl' := tbl[y := AndNot(tbl[y], Bit(x))];
    var grp' := if tbl'[y] == 0 then AndNot(grp, Bit(y)) else grp;
    AndNotWithin(grp, Bit(y));
    forall k {:trigger tbl'[k]} | 0 <= k < |tbl'|
      ensures tbl'[k] < Bit(RowWidth(lowest, k)) && (Has(grp', k) <==> tbl'[k] != 0)
    {
      RowOk(lowest, grp, tbl, |tbl|, k);
      HasAndNot(grp, Bit(y), k);
      HasBit(y, k);
      AndNotWithin(tbl[y], Bit(x));
    }
    RowsOkFrom(lowest, grp', tbl', |tbl'|);
    forall q ensures q in Members(lowest, tbl') <==> q in Members(lowest, tbl) - {p} {
      if q >= 0 { RemoveMember(lowest, tbl, p, q); }
    }
  }

  lemma RemoveMember(lowest: nat, tbl: seq<nat>, p: nat, q: nat)
    requires |tbl| == Rows(lowest) && p <= lowest <= MAX_LOWEST_PRIO
    ensures RowOf(lowest, p) < |tbl|
    ensures var y, x := RowOf(lowest, p), ColOf(lowest, p);
            q in Members(lowest, tbl[y := AndNot(tbl[y], Bit(x))]) <==> q in Members(lowest, tbl) && q != p
  {
    hide Rows;
    WidthIsEnough(lowest, p);
    var y, x := RowOf(lowest, p), ColOf(lowest, p);
    InMembersBelow(lowest, tbl, lowest + 1, q);
    InMembersBelow(lowest, tbl[y := AndNot(tbl[y], Bit(x))], lowest + 1, q);
    HasAndNot(tbl[y], Bit(x), ColOf(lowest, q));
    HasBit(x, ColOf(lowest, q));
  }

  /** A map with every word cleared is the empty set. */
  lemma Cleared(lowest: nat, tbl: seq<nat>)
    requires lowest <= MAX_LOWEST_PRIO && |tbl| == Rows(lowest) && forall y | 0 <= y < |tbl| :: tbl[y] == 0
    ensures Valid(lowest, 0, tbl) && Members(lowest, tbl) == {}
  {
    BitPositive(|tbl|);
    forall y {:trigger tbl[y]} | 0 <= y < |tbl|
      ensures tbl[y] < Bit(RowWidth(lowest, y)) && (Has(0, y) <==> tbl[y] != 0) {
      HasZero(y);
      BitPositive(RowWidth(lowest, y));
    }
    RowsOkFrom(lowest, 0, tbl, |tbl|);
    forall p | p in Members(lowest, tbl) ensures false {
      InMembersBelow(lowest, tbl, lowest + 1, p);
      HasZero(ColOf(lowest, p));
    }
  }

  lemma {:induction false} BitPositive(n: nat)
    ensures Bit(n) > 0
  {
    if n > 0 { BitPositive(n - 1); }
  }

  // ---------------------------------------------------------------- finding the highest priority

  /** The lowest set bit of a word through OSUnMapTbl, a byte at a time when the word has 16 bits. */
  function FindBit(lowest: nat, w: nat): (x: nat)
    requires 0 < w < Bit(Width(lowest))
  {
    assert Bit(8) == 256 && Bit(16) == 65536;
    if lowest <= 63 then OSUnMapTbl(w)
    else if w % 256 != 0 then OSUnMapTbl(w % 256)
    else OSUnMapTbl((w / 256) % 256) + 8
  }

  lemma FindBitIsLowest(lowest: nat, w: nat)
    requires 0 < w < Bit(Width(lowest))
    ensures FindBit(lowest, w) == Lowest(w) < Width(lowest)
  {
    assert Bit(8) == 256 && Bit(16) == 65536;
    LowestWithin(w, Width(lowest));
    if lowest <= 63 {
      OSUnMapTblIsLowest(w);
    } else {
      LowestSplits(8, w / 256, w % 256, w);
      if w % 256 != 0 { OSUnMapTblIsLowest(w % 256); } else { OSUnMapTblIsLowest(w / 256); }
    }
  }

  /** The group word's lowest bit is a row, and that row is a word that is not zero. */
  lemma FirstRow(lowest: nat, grp: nat, tbl: seq<nat>)
    requires Valid(lowest, grp, tbl) && grp != 0
    ensures 0 < grp < Bit(Width(lowest)) && FindBit(lowest, grp) == Lowest(grp) < |tbl|
    ensures var row := tbl[FindBit(lowest, grp)];
            0 < row < Bit(Width(lowest)) && row < Bit(RowWidth(lowest, Lowest(grp)))
  {
    WidthIsEnough(lowest, lowest);
    LowestWithin(grp, |tbl|);
    if |tbl| < Width(lowest) { BitGrows(|tbl|, Width(lowest)); }
    FindBitIsLowest(lowest, grp);
    var y := Lowest(grp);
    RowOk(lowest, grp, tbl, |tbl|, y);
    if RowWidth(lowest, y) < Width(lowest) { BitGrows(RowWidth(lowest, y), Width(lowest)); }
  }

  /** What OS_SchedNew and OS_EventTaskRdy compute from a map that is not empty. */
  function FindHighest(lowest: nat, grp: nat, tbl: seq<nat>): (p: nat)
    requires Valid(lowest, grp, tbl) && grp != 0
  {
    FirstRow(lowest, grp, tbl);
    var y := FindBit(lowest, grp);
    PrioOf(lowest, y, FindBit(lowest, tbl[y]))
  }

  /** The first non-empty row and its first bit are a member. */
  lemma FindHighestIsMember(lowest: nat, grp: nat, tbl: seq<nat>)
    requires Valid(lowest, grp, tbl) && grp != 0
    ensures FindHighest(lowest, grp, tbl) in Members(lowest, tbl)
  {
    FirstRow(lowest, grp, tbl);
    var y := Lowest(grp);
    var x := Lowest(tbl[y]);
    FindBitIsLowest(lowest, tbl[y]);
    LowestWithin(tbl[y], RowWidth(lowest, y));
    PrioOfRow(lowest, y, x);
    InMembersBelow(lowest, tbl, lowest + 1, PrioOf(lowest, y, x));
  }

  /** No member comes before it. */
  lemma FindHighestIsLeast(lowest: nat, grp: nat, tbl: seq<nat>, q: nat)
    requires Valid(lowest, grp, tbl) && q in Members(lowest, tbl)
    ensures grp != 0 && FindHighest(lowest, grp, tbl) <= q
  {
    InMembersBelow(lowest, tbl, lowest + 1, q);
    var row, col := RowOf(lowest, q), ColOf(lowest, q);
    HasZero(col);
    HasZero(row);
    RowOk(lowest, grp, tbl, |tbl|, row);
    FirstRow(lowest, grp, tbl);
    FindBitIsLowest(lowest, tbl[Lowest(grp)]);
    assert Lowest(grp) <= row;
    if Lowest(grp) == row { assert Lowest(tbl[row]) <= col; }
  }
}
