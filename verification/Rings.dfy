/**
 The circular buffers of the JTAG UART fast driver, for any buffer length: one slot always
 stays free, so that equal indices mean an empty buffer.
 */
module Rings {
  type Byte = b: int | 0 <= b < 256

  datatype Ring = Ring(buf: seq<Byte>, inn: nat, out: nat)

  predicate IsRing(r: Ring) { |r.buf| >= 2 && r.inn < |r.buf| && r.out < |r.buf| }

  /** Bytes between two indices of a buffer of length `len`. */
  function Occ(len: nat, out: nat, inn: nat): (k: nat)
    requires out < len && inn < len
    ensures k < len
  {
    if out <= inn then inn - out else inn + len - out
  }

  /** The slot `j` places after `x`. */
  function At(len: nat, x: nat, j: nat): (k: nat)
    requires x < len && j < len
    ensures k < len
  {
    if x + j < len then x + j else x + j - len
  }

  function Buffered(r: Ring): (s: seq<Byte>)
    requires IsRing(r)
    ensures |s| == Occ(|r.buf|, r.out, r.inn)
    ensures forall j | 0 <= j < |s| :: s[j] == r.buf[At(|r.buf|, r.out, j)]
  {
    seq(Occ(|r.buf|, r.out, r.inn), j requires 0 <= j < Occ(|r.buf|, r.out, r.inn) => r.buf[At(|r.buf|, r.out, j)])
  }

  /** `(x + n) % BUF_LEN`. */
  function Advance(len: nat, x: nat, n: nat): (k: nat)
    requires x < len
    ensures k < len
  {
    (x + n) % len
  }

  lemma AdvanceIs(len: nat, x: nat, n: nat)
    requires x < len && n < len
    ensures Advance(len, x, n) == At(len, x, n)
  {
    if x + n < len { SmallMod(x + n, len); } else { SmallMod(x + n - len, len); LessMod(x + n, len); }
  }

  lemma SmallMod(x: nat, m: nat)
    requires x < m
    ensures x % m == x
  { }

  lemma LessMod(x: nat, m: nat)
    requires m <= x < 2 * m
    ensures x % m == (x - m) % m
  { }

  predicate Full(r: Ring)
    requires IsRing(r)
  {
    Advance(|r.buf|, r.inn, 1) == r.out
  }

  lemma FullIs(r: Ring)
    requires IsRing(r)
    ensures Full(r) <==> |Buffered(r)| == |r.buf| - 1
  {
    AdvanceIs(|r.buf|, r.inn, 1);
  }

  /** `buf[in] = b; in = (in + 1) % BUF_LEN`. */
  function Push(r: Ring, b: Byte): Ring
    requires IsRing(r)
  {
    Ring(r.buf[r.inn := b], Advance(|r.buf|, r.inn, 1), r.out)
  }

  lemma PushAppends(r: Ring, b: Byte)
    requires IsRing(r) && !Full(r)
    ensures IsRing(Push(r, b)) && Buffered(Push(r, b)) == Buffered(r) + [b]
  {
    AdvanceIs(|r.buf|, r.inn, 1);
    var x, y := Buffered(Push(r, b)), Buffered(r) + [b];
    assert |x| == |y|;
    forall j | 0 <= j < |x| ensures x[j] == y[j] { }
  }

  /** `out = (out + n) % BUF_LEN`. */
  function Drop(r: Ring, n: nat): Ring
    requires IsRing(r)
  {
    r.(out := Advance(|r.buf|, r.out, n))
  }

  lemma DropRemoves(r: Ring, n: nat)
    requires IsRing(r) && n <= |Buffered(r)|
    ensures IsRing(Drop(r, n)) && Buffered(Drop(r, n)) == Buffered(r)[n..]
  {
    AdvanceIs(|r.buf|, r.out, n);
  }

  /** A byte put into a free slot, and the index moved over it and others later. */
  lemma PutOutside(r: Ring, k: nat, b: Byte)
    requires IsRing(r) && Occ(|r.buf|, r.out, r.inn) + k < |r.buf|
    ensures var slot := At(|r.buf|, r.inn, k);
            IsRing(r.(buf := r.buf[slot := b])) && Buffered(r.(buf := r.buf[slot := b])) == Buffered(r)
  { }

  lemma Appended(r: Ring, n: nat, data: seq<Byte>)
    requires IsRing(r) && n == |data| && Occ(|r.buf|, r.out, r.inn) + n < |r.buf|
    requires forall k | 0 <= k < n :: r.buf[At(|r.buf|, r.inn, k)] == data[k]
    ensures var r' := r.(inn := Advance(|r.buf|, r.inn, n)); IsRing(r') && Buffered(r') == Buffered(r) + data
  {
    AdvanceIs(|r.buf|, r.inn, n);
    var r' := r.(inn := Advance(|r.buf|, r.inn, n));
    var x, y := Buffered(r'), Buffered(r) + data;
    assert |x| == |y|;
    forall j | 0 <= j < |x| ensures x[j] == y[j] {
      var o := |Buffered(r)|;
      if j >= o { assert At(|r.buf|, r.out, j) == At(|r.buf|, r.inn, j - o); }
    }
  }

  /** How many bytes altera_avalon_jtag_uart_read copies at once, before it looks at its space. */
  function ReadRun(len: nat, inn: nat, out: nat): (n: nat)
    requires inn < len && out < len
    ensures n <= Occ(len, out, inn) && out + n <= len
    ensures n == 0 <==> inn == out
  {
    if inn >= out then inn - out else len - out
  }

  /** How many bytes altera_avalon_jtag_uart_write copies at once, before it looks at its count. */
  function WriteRun(len: nat, inn: nat, out: nat): (n: nat)
    requires inn < len && out < len
    ensures Occ(len, out, inn) + n < len && inn + n <= len
    ensures n == 0 <==> Occ(len, out, inn) == len - 1
  {
    if inn < out then out - 1 - inn
    else if out > 0 then len - inn
    else len - 1 - inn
  }
}
