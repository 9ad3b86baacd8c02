/**
 INT8U and INT16U words as natural numbers, with the bitwise operators of C spelled out on
 binary digits, and the priority resolution table of os_core.c.
 */
module Words {
  /** `a | b`. */
  function Or(a: nat, b: nat): (r: nat)
    decreases a + b
  {
    if a == 0 then b
    else if b == 0 then a
    else (if a % 2 == 1 || b % 2 == 1 then 1 else 0) + 2 * Or(a / 2, b / 2)
  }

  /** `a & ~b`. */
  function AndNot(a: nat, b: nat): (r: nat) {
    if a == 0 then 0
    else (if a % 2 == 1 && b % 2 == 0 then 1 else 0) + 2 * AndNot(a / 2, b / 2)
  }

  /** `1 << x`. */
  function Bit(x: nat): (r: nat) {
    if x == 0 then 1 else 2 * Bit(x - 1)
  }

  /** Bit `x` of `w` is set. */
  predicate Has(w: nat, x: nat) {
    if x == 0 then w % 2 == 1 else Has(w / 2, x - 1)
  }

  lemma {:induction false} HasZero(x: nat)
    ensures !Has(0, x)
  {
    if x > 0 { HasZero(x - 1); }
  }

  lemma {:induction false} HasOr(a: nat, b: nat, x: nat)
    ensures Has(Or(a, b), x) <==> Has(a, x) || Has(b, x)
    decreases x
  {
    HasZero(x);
    if x > 0 && a > 0 && b > 0 { HasOr(a / 2, b / 2, x - 1); }
  }

  lemma {:induction false} HasAndNot(a: nat, b: nat, x: nat)
    ensures Has(AndNot(a, b), x) <==> Has(a, x) && !Has(b, x)
    decreases x
  {
    HasZero(x);
    if x > 0 && a > 0 { HasAndNot(a / 2, b / 2, x - 1); }
  }

  lemma {:induction false} HasBit(k: nat, x: nat)
    ensures Has(Bit(k), x) <==> x == k
    decreases x
  {
    if k == 0 && x > 0 { HasZero(x - 1); } else if x > 0 { HasBit(k - 1, x - 1); }
  }

  /** The position of the lowest set bit. */
  function Lowest(w: nat): (r: nat)
    requires w > 0
    ensures Has(w, r)
    ensures forall x | 0 <= x < r :: !Has(w, x)
  {
    if w % 2 == 1 then 0 else
      var t := Lowest(w / 2);
      assert forall x | 1 <= x < t + 1 :: Has(w, x) == Has(w / 2, x - 1);
      1 + t
  }

  /** A word of `n` bits has none above them. */
  lemma {:induction false} NoneAbove(w: nat, n: nat, x: nat)
    requires w < Bit(n) && x >= n
    ensures !Has(w, x)
    decreases n
  {
    if n == 0 { HasZero(x); } else { NoneAbove(w / 2, n - 1, x - 1); }
  }

  lemma LowestWithin(w: nat, n: nat)
    requires 0 < w < Bit(n)
    ensures Lowest(w) < n
  {
    if Lowest(w) >= n { NoneAbove(w, n, Lowest(w)); }
  }

  lemma {:induction false} OrWithin(a: nat, b: nat, n: nat)
    requires a < Bit(n) && b < Bit(n)
    ensures Or(a, b) < Bit(n)
    decreases n
  {
    if n > 0 && a > 0 && b > 0 { OrWithin(a / 2, b / 2, n - 1); }
  }

  lemma {:induction false} AndNotWithin(a: nat, b: nat)
    ensures AndNot(a, b) <= a
  {
    if a > 0 { AndNotWithin(a / 2, b / 2); }
  }

  lemma {:induction false} BitGrows(k: nat, n: nat)
    requires k < n
    ensures Bit(k) < Bit(n)
  {
    if k > 0 { BitGrows(k - 1, n - 1); } else if n > 1 { BitGrows(0, n - 1); }
  }

  /** OSUnMapTbl, one row of sixteen entries at a time. */
  function UnMapRow(h: nat): seq<nat>
    requires h < 16
  {
    match h
    case 0 => [0, 0, 1, 0, 2, 0, 1, 0, 3, 0, 1, 0, 2, 0, 1, 0]
    case 1 => [4, 0, 1, 0, 2, 0, 1, 0, 3, 0, 1, 0, 2, 0, 1, 0]
    case 2 => [5, 0, 1, 0, 2, 0, 1, 0, 3, 0, 1, 0, 2, 0, 1, 0]
    case 3 => [4, 0, 1, 0, 2, 0, 1, 0, 3, 0, 1, 0, 2, 0, 1, 0]
    case 4 => [6, 0, 1, 0, 2, 0, 1, 0, 3, 0, 1, 0, 2, 0, 1, 0]
    case 5 => [4, 0, 1, 0, 2, 0, 1, 0, 3, 0, 1, 0, 2, 0, 1, 0]
    case 6 => [5, 0, 1, 0, 2, 0, 1, 0, 3, 0, 1, 0, 2, 0, 1, 0]
    case 7 => [4, 0, 1, 0, 2, 0, 1, 0, 3, 0, 1, 0, 2, 0, 1, 0]
    case 8 => [7, 0, 1, 0, 2, 0, 1, 0, 3, 0, 1, 0, 2, 0, 1, 0]
    case 9 => [4, 0, 1, 0, 2, 0, 1, 0, 3, 0, 1, 0, 2, 0, 1, 0]
    case 10 => [5, 0, 1, 0, 2, 0, 1, 0, 3, 0, 1, 0, 2, 0, 1, 0]
    case 11 => [4, 0, 1, 0, 2, 0, 1, 0, 3, 0, 1, 0, 2, 0, 1, 0]
    case 12 => [6, 0, 1, 0, 2, 0, 1, 0, 3, 0, 1, 0, 2, 0, 1, 0]
    case 13 => [4, 0, 1, 0, 2, 0, 1, 0, 3, 0, 1, 0, 2, 0, 1, 0]
    case 14 => [5, 0, 1, 0, 2, 0, 1, 0, 3, 0, 1, 0, 2, 0, 1, 0]
    case _ => [4, 0, 1, 0, 2, 0, 1, 0, 3, 0, 1, 0, 2, 0, 1, 0]
  }

  /** `OSUnMapTbl[w]`. */
  function OSUnMapTbl(w: nat): nat
    requires w < 256
  {
    UnMapRow(w / 16)[w % 16]
  }

  const LEAD: seq<nat> := [0, 4, 5, 4, 6, 4, 5, 4, 7, 4, 5, 4, 6, 4, 5, 4]

  function Row(lead: nat): seq<nat> {
    [lead, 0, 1, 0, 2, 0, 1, 0, 3, 0, 1, 0, 2, 0, 1, 0]
  }

  /** The rows of the table differ in their first column only. */
  lemma RowShape(h: nat)
    requires h < 16
    ensures UnMapRow(h) == Row(LEAD[h])
  { }

  /** The lowest set bit of a non-zero nibble. */
  function NibbleLowest(l: nat): nat {
    if l % 2 == 1 then 0 else if l == 8 then 3 else if l == 4 || l == 12 then 2 else 1
  }

  lemma RowColumn(lead: nat, l: nat)
    requires l < 16
    ensures Row(lead)[l] == if l == 0 then lead else NibbleLowest(l)
  { }

  lemma LeadColumn(h: nat)
    requires 0 < h < 16
    ensures LEAD[h] == 4 + NibbleLowest(h)
  { }

  lemma LowestDoubles(w: nat)
    requires w > 0
    ensures Lowest(2 * w) == 1 + Lowest(w)
  { }

  lemma LowestSmall(l: nat)
    requires 0 < l < 16
    ensures Lowest(l) == NibbleLowest(l)
  {
    if l % 2 == 0 {
      LowestDoubles(l / 2);
      if l == 4 { LowestDoubles(1); }
      if l == 8 { LowestDoubles(2); LowestDoubles(1); }
      if l == 12 { LowestDoubles(3); }
    }
  }

  /** `2^k * h + l` has its lowest bit in `l`, or else in `h`. */
  lemma BitHalves(k: nat, h: nat)
    requires k > 0
    ensures Bit(k) == 2 * Bit(k - 1) && Bit(k) * h == 2 * (Bit(k - 1) * h) && Bit(k - 1) * h >= 0
  { }

  lemma LowestHalves(w: nat)
    requires w > 0
    ensures if w % 2 == 1 then Lowest(w) == 0 else w / 2 > 0 && Lowest(w) == 1 + Lowest(w / 2)
  { }

  lemma {:induction false} LowestSplits(k: nat, h: nat, l: nat, w: nat)
    requires l < Bit(k) && w == Bit(k) * h + l && w > 0
    ensures l != 0 ==> Lowest(w) == Lowest(l)
    ensures l == 0 ==> h > 0 && Lowest(w) == k + Lowest(h)
    decreases k, 1
  {
    hide Has, Lowest;
    if k == 0 {
      assert w == h;
    } else {
      BitHalves(k, h);
      SplitsAgain(k, h, l, w, Bit(k - 1) * h);
    }
  }

  lemma SplitsAgain(k: nat, h: nat, l: nat, w: nat, half: nat)
    requires k > 0 && l < Bit(k) == 2 * Bit(k - 1) && half == Bit(k - 1) * h && w == 2 * half + l && w > 0
    ensures l != 0 ==> Lowest(w) == Lowest(l)
    ensures l == 0 ==> h > 0 && Lowest(w) == k + Lowest(h)
    decreases k, 0
  {
    hide Has, Lowest, Bit;
    LowestHalves(w);
    if l > 0 { LowestHalves(l); }
    if l % 2 == 0 { LowestSplits(k - 1, h, l / 2, half + l / 2); }
  }

  /** The table holds the position of the lowest set bit of every byte but zero. */
  lemma OSUnMapTblIsLowest(w: nat)
    requires 0 < w < 256
    ensures OSUnMapTbl(w) == Lowest(w)
  {
    RowShape(w / 16);
    assert Bit(4) == 16;
    LowestSplits(4, w / 16, w % 16, w);
    RowColumn(LEAD[w / 16], w % 16);
    if w % 16 != 0 { LowestSmall(w % 16); } else { LowestSmall(w / 16); LeadColumn(w / 16); }
  }
}
