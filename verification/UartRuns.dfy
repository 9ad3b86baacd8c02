/**
 The JTAG UART fast driver as a state machine: a task in altera_avalon_jtag_uart_read, a task
 in altera_avalon_jtag_uart_write, tasks that have left the read loop and are about to enable
 the receive interrupt, and the interrupt routine, which may run between any two of the
 tasks' accesses to shared variables and between any two bytes of their copies.
 */
module UartRuns {
  import opened Rings

  /** A read of the data register: RVALID, the byte, and whether RAVAIL is not zero. */
  datatype Reg = Reg(valid: bool, data: Byte, avail: bool)

  /** The device does not announce more data along with data that is not valid. */
  ghost predicate Honest(regs: seq<Reg>) {
    forall i | 0 <= i < |regs| :: regs[i].avail ==> regs[i].valid
  }

  /** The task that holds read_lock. `buffer` is what it has put into its caller's buffer. */
  datatype Reader =
    | NoReader
    | Looking(space: nat, buffer: seq<Byte>)
    | SawIn(space: nat, buffer: seq<Byte>, inn: nat)
    | Taking(space: nat, buffer: seq<Byte>, out: nat, n: nat, copied: seq<Byte>)
    | Starved(space: nat, buffer: seq<Byte>)
    | Leaving(buffer: seq<Byte>)

  /**
   The receiving half. `enabling` tasks have read something and not yet enabled the interrupt.
   `misled` says that the interrupt routine has turned it off on data that was not valid
   although more was announced, that nobody has enabled it since, and that no later round of
   the routine has filled the buffer.
   */
  datatype Rx = Rx(
    ring: Ring, re: bool, reader: Reader, enabling: nat, accepted: seq<Byte>, returned: seq<seq<Byte>>, misled: bool)

  /** The task that holds write_lock. It has put `done` bytes of its data into the buffer. */
  datatype Writer =
    | NoWriter
    | Filling(data: seq<Byte>, done: nat, dirty: bool)
    | Putting(data: seq<Byte>, done: nat, dirty: bool, inn: nat, n: nat, k: nat)
    | Kicking(data: seq<Byte>, done: nat, dirty: bool)
    | Kicked(data: seq<Byte>, done: nat)

  datatype Tx = Tx(ring: Ring, we: bool, writer: Writer, sent: seq<Byte>, returned: seq<seq<Byte>>)

  datatype Uart = Uart(rx: Rx, tx: Tx)

  datatype RxStep =
    | ReadCall(space: nat) | LookIn | LookOut | TakeByte | PublishOut | Retry | GiveUp | ReadReturn | EnableRead
  datatype TxStep = WriteCall(data: seq<Byte>) | LookBoth | PutByte | PublishIn | Kick | Again | WriteReturn

  /** One round of the interrupt routine's loop, or one access of a task. */
  datatype Step = Irq(ri: bool, wi: bool, regs: seq<Reg>, wspace: nat) | ReaderStep(r: RxStep) | WriterStep(w: TxStep)

  ghost function Flatten(ss: seq<seq<Byte>>): seq<Byte> {
    if ss == [] then [] else Flatten(ss[..|ss| - 1]) + ss[|ss| - 1]
  }

  lemma FlattenLast(ss: seq<seq<Byte>>, s: seq<Byte>)
    ensures Flatten(ss + [s]) == Flatten(ss) + s
  {
    assert (ss + [s])[..|ss|] == ss;
  }

  // ---------------------------------------------------------------- the interrupt routine

  datatype Received = Received(ring: Ring, accepted: seq<Byte>, avail: bool, valid: bool)

  /** The inner loop over the data register, `avail` and `valid` being the last RAVAIL and RVALID seen. */
  ghost function Receive(r: Received, regs: seq<Reg>): Received
    requires IsRing(r.ring)
    decreases |regs|
  {
    if Full(r.ring) || regs == [] then r
    else if !regs[0].valid then r.(avail := regs[0].avail, valid := false)
    else
      PushAppends(r.ring, regs[0].data);
      Receive(Received(Push(r.ring, regs[0].data), r.accepted + [regs[0].data], regs[0].avail, true), regs[1..])
  }

  lemma {:induction false} ReceiveIsRing(r: Received, regs: seq<Reg>)
    requires IsRing(r.ring)
    ensures IsRing(Receive(r, regs).ring)
    decreases |regs|
  {
    if !Full(r.ring) && regs != [] && regs[0].valid {
      PushAppends(r.ring, regs[0].data);
      var next := Received(Push(r.ring, regs[0].data), r.accepted + [regs[0].data], regs[0].avail, true);
      ReceiveIsRing(next, regs[1..]);
    }
  }

  ghost function RxIrq(rx: Rx, regs: seq<Reg>): Rx
    requires IsRing(rx.ring)
  {
    var r := Receive(Received(rx.ring, rx.accepted, true, true), regs);
    ReceiveIsRing(Received(rx.ring, rx.accepted, true, true), regs);
    rx.(ring := r.ring, accepted := r.accepted, re := rx.re && !r.avail,
        misled := (rx.misled || (r.avail && !r.valid)) && !Full(r.ring))
  }

  datatype Sent = Sent(ring: Ring, sent: seq<Byte>, space: nat)

  /** The loop that fills the transmit FIFO. */
  ghost function Send(s: Sent): Sent
    requires IsRing(s.ring)
    decreases s.space
  {
    if s.space == 0 || s.ring.out == s.ring.inn then s
    else
      DropRemoves(s.ring, 1);
      Send(Sent(Drop(s.ring, 1), s.sent + [s.ring.buf[s.ring.out]], s.space - 1))
  }

  ghost function TxIrq(tx: Tx, wspace: nat): Tx
    requires IsRing(tx.ring)
  {
    var s := Send(Sent(tx.ring, tx.sent, wspace));
    tx.(ring := s.ring, sent := s.sent, we := tx.we && s.space == 0)
  }

  // ---------------------------------------------------------------- the tasks

  function Min(a: nat, b: nat): (m: nat)
    ensures m <= a && m <= b && (m == a || m == b)
  {
    if a < b then a else b
  }

  ghost predicate RxEnabled(rx: Rx, step: RxStep) {
    match step
    case ReadCall(_) => rx.reader.NoReader?
    case LookIn => rx.reader.Looking? && rx.reader.space > 0
    case LookOut => rx.reader.SawIn?
    case TakeByte => rx.reader.Taking? && |rx.reader.copied| < rx.reader.n
    case PublishOut => rx.reader.Taking? && |rx.reader.copied| == rx.reader.n
    case Retry => rx.reader.Starved?
    case GiveUp => rx.reader.Starved? || (rx.reader.Looking? && rx.reader.space == 0)
    case ReadReturn => rx.reader.Leaving?
    case EnableRead => rx.enabling > 0
  }

  ghost function RxNext(rx: Rx, step: RxStep): Rx
    requires RxOk(rx) && RxEnabled(rx, step)
  {
    match step
    case ReadCall(space) => rx.(reader := Looking(space, []))
    case LookIn => rx.(reader := SawIn(rx.reader.space, rx.reader.buffer, rx.ring.inn))
    case LookOut =>
      var n := ReadRun(|rx.ring.buf|, rx.reader.inn, rx.ring.out);
      rx.(reader :=
        if n > 0 then Taking(rx.reader.space, rx.reader.buffer, rx.ring.out, Min(n, rx.reader.space), [])
        else if rx.reader.buffer != [] then Leaving(rx.reader.buffer)
        else Starved(rx.reader.space, []))
    case TakeByte =>
      rx.(reader := rx.reader.(copied := rx.reader.copied + [rx.ring.buf[rx.reader.out + |rx.reader.copied|]]))
    case PublishOut =>
      rx.(ring := rx.ring.(out := Advance(|rx.ring.buf|, rx.reader.out, rx.reader.n)),
          reader := Looking(rx.reader.space - rx.reader.n, rx.reader.buffer + rx.reader.copied))
    case Retry => rx.(reader := Looking(rx.reader.space, []))
    case GiveUp => rx.(reader := Leaving(rx.reader.buffer))
    case ReadReturn =>
      rx.(reader := NoReader, returned := rx.returned + [rx.reader.buffer],
          enabling := if rx.reader.buffer != [] then rx.enabling + 1 else rx.enabling)
    case EnableRead => rx.(re := true, enabling := rx.enabling - 1, misled := false)
  }

  ghost predicate TxEnabled(tx: Tx, step: TxStep) {
    match step
    case WriteCall(_) => tx.writer.NoWriter?
    case LookBoth => tx.writer.Filling?
    case PutByte => tx.writer.Putting? && tx.writer.k < tx.writer.n
    case PublishIn => tx.writer.Putting? && tx.writer.k == tx.writer.n
    case Kick => tx.writer.Kicking?
    case Again => tx.writer.Kicked? && tx.writer.done < |tx.writer.data|
    case WriteReturn => tx.writer.Kicked?
  }

  ghost function TxNext(tx: Tx, step: TxStep): Tx
    requires TxOk(tx) && TxEnabled(tx, step)
  {
    var w := tx.writer;
    match step
    case WriteCall(data) => tx.(writer := Filling(data, 0, false))
    case LookBoth =>
      var n := WriteRun(|tx.ring.buf|, tx.ring.inn, tx.ring.out);
      tx.(writer :=
        if w.done < |w.data| && n > 0 then Putting(w.data, w.done, w.dirty, tx.ring.inn, Min(n, |w.data| - w.done), 0)
        else Kicking(w.data, w.done, w.dirty))
    case PutByte =>
      tx.(ring := tx.ring.(buf := tx.ring.buf[w.inn + w.k := w.data[w.done + w.k]]), writer := w.(k := w.k + 1))
    case PublishIn =>
      tx.(ring := tx.ring.(inn := Advance(|tx.ring.buf|, w.inn, w.n)), writer := Filling(w.data, w.done + w.n, true))
    case Kick => tx.(we := true, writer := Kicked(w.data, w.done))
    case Again => tx.(writer := Filling(w.data, w.done, false))
    case WriteReturn => tx.(writer := NoWriter, returned := tx.returned + [w.data[..w.done]])
  }

  // ---------------------------------------------------------------- the invariant

  /** What readers have got so far, in order. */
  ghost function Handed(rx: Rx): seq<Byte> {
    Flatten(rx.returned) + if rx.reader.NoReader? then [] else rx.reader.buffer
  }

  ghost predicate ReaderOk(r: Ring, reader: Reader)
    requires IsRing(r)
  {
    match reader
    case NoReader => true
    case Looking(_, _) => true
    case SawIn(space, _, inn) => space > 0 && inn < |r.buf| && Occ(|r.buf|, r.out, inn) <= |Buffered(r)|
    case Taking(space, _, out, n, copied) =>
      && 0 < n <= space && out == r.out && out + n <= |r.buf|
      && n <= |Buffered(r)| && |copied| <= n && copied == Buffered(r)[..|copied|]
    case Starved(_, buffer) => buffer == []
    case Leaving(_) => true
  }

  /** Nobody is due to enable the receive interrupt. */
  ghost predicate NoEnableDue(rx: Rx) {
    rx.enabling == 0 && (rx.reader.NoReader? || rx.reader.buffer == [])
  }

  ghost predicate RxOk(rx: Rx) {
    && IsRing(rx.ring)
    && ReaderOk(rx.ring, rx.reader)
    && Handed(rx) + Buffered(rx.ring) == rx.accepted
    && (rx.re ==> !rx.misled)
    && (!rx.re && NoEnableDue(rx) ==> (Full(rx.ring) <==> !rx.misled))
  }

  /** What the writes have put into the buffer so far, in order. */
  ghost function Published(tx: Tx): seq<Byte> {
    Flatten(tx.returned)
    + if tx.writer.NoWriter? || tx.writer.done > |tx.writer.data| then [] else tx.writer.data[..tx.writer.done]
  }

  ghost predicate WriterOk(r: Ring, w: Writer)
    requires IsRing(r)
  {
    && (w.NoWriter? || w.done <= |w.data|)
    && (w.Putting? ==>
          && w.inn == r.inn && 0 < w.n && w.k <= w.n && w.done + w.n <= |w.data|
          && r.inn + w.n <= |r.buf| && |Buffered(r)| + w.n < |r.buf|
          && r.buf[r.inn..r.inn + w.k] == w.data[w.done..w.done + w.k])
  }

  /** The writer has put something into the buffer and not yet enabled the transmit interrupt. */
  ghost predicate KickDue(w: Writer) { (w.Filling? || w.Putting? || w.Kicking?) && w.dirty }

  ghost predicate TxOk(tx: Tx) {
    && IsRing(tx.ring)
    && WriterOk(tx.ring, tx.writer)
    && tx.sent + Buffered(tx.ring) == Published(tx)
    && (Buffered(tx.ring) != [] && !KickDue(tx.writer) ==> tx.we)
  }

  // ---------------------------------------------------------------- every step keeps it

  lemma {:induction false} ReceiveKeeps(r: Received, regs: seq<Reg>, before: seq<Byte>)
    requires IsRing(r.ring) && before + Buffered(r.ring) == r.accepted
    ensures var r' := Receive(r, regs);
            && IsRing(r'.ring) && |r'.ring.buf| == |r.ring.buf| && r'.ring.out == r.ring.out
            && before + Buffered(r'.ring) == r'.accepted
            && r.accepted <= r'.accepted
    decreases |regs|
  {
    if !Full(r.ring) && regs != [] && regs[0].valid {
      var b := regs[0].data;
      PushAppends(r.ring, b);
      assert before + (Buffered(r.ring) + [b]) == r.accepted + [b];
      ReceiveKeeps(Received(Push(r.ring, b), r.accepted + [b], regs[0].avail, true), regs[1..], before);
    }
  }

  /** The loop ends with data still announced when the buffer is full, and otherwise only on data that is not valid. */
  lemma {:induction false} ReceiveStops(r: Received, regs: seq<Reg>)
    requires IsRing(r.ring) && r.valid && |Buffered(r.ring)| + |regs| >= |r.ring.buf| - 1
    requires IsRing(Receive(r, regs).ring)
    ensures Receive(r, regs).avail ==> (Full(Receive(r, regs).ring) <==> Receive(r, regs).valid)
    ensures Honest(regs) ==> !Receive(r, regs).avail || Receive(r, regs).valid
    decreases |regs|
  {
    FullIs(r.ring);
    if !Full(r.ring) && regs != [] && regs[0].valid {
      PushAppends(r.ring, regs[0].data);
      ReceiveStops(Received(Push(r.ring, regs[0].data), r.accepted + [regs[0].data], regs[0].avail, true), regs[1..]);
    }
  }

  /** The bytes that `regs` deliver. */
  ghost function Bytes(regs: seq<Reg>): (s: seq<Byte>)
    ensures |s| == |regs| && forall i | 0 <= i < |s| :: s[i] == regs[i].data
  {
    seq(|regs|, i requires 0 <= i < |regs| => regs[i].data)
  }

  /** Of `regs` the first `n` are valid, and the next one is not unless the room for `free` bytes is used up. */
  ghost predicate Taken(regs: seq<Reg>, free: nat, n: nat) {
    && n <= free && n <= |regs|
    && (forall i | 0 <= i < n :: regs[i].valid)
    && (n < free ==> n < |regs| && !regs[n].valid)
  }

  /** Whether the last read announced more data; before the first one the routine assumes so. */
  ghost predicate Announced(regs: seq<Reg>, free: nat, n: nat)
    requires Taken(regs, free, n)
  {
    if n < free then regs[n].avail
    else if n > 0 then regs[n - 1].avail
    else true
  }

  lemma OneMoreByte(before: seq<Byte>, regs: seq<Reg>, n: nat)
    requires 1 <= n <= |regs|
    ensures (before + [regs[0].data]) + Bytes(regs[1..][..n - 1]) == before + Bytes(regs[..n])
  {
    assert Bytes(regs[..n]) == [regs[0].data] + Bytes(regs[1..][..n - 1]);
    Regroup(before, [regs[0].data], Bytes(regs[1..][..n - 1]));
  }

  /** The loop takes the leading valid bytes that fit, in order, and ends with the RAVAIL and RVALID read last. */
  lemma {:induction false} ReceiveTakes(r: Received, regs: seq<Reg>, n: nat)
    requires IsRing(r.ring) && r.valid && Taken(regs, |r.ring.buf| - 1 - |Buffered(r.ring)|, n)
    ensures var r', free := Receive(r, regs), |r.ring.buf| - 1 - |Buffered(r.ring)|;
            && IsRing(r'.ring) && |r'.ring.buf| == |r.ring.buf| && r'.ring.out == r.ring.out
            && r'.accepted == r.accepted + Bytes(regs[..n])
            && Buffered(r'.ring) == Buffered(r.ring) + Bytes(regs[..n])
            && r'.avail == (if n == free == 0 then r.avail else Announced(regs, free, n))
            && r'.valid == (n == free)
    decreases n
  {
    var free := |r.ring.buf| - 1 - |Buffered(r.ring)|;
    FullIs(r.ring);
    if n == 0 {
      assert Bytes(regs[..0]) == [];
    } else {
      PushAppends(r.ring, regs[0].data);
      var next := Received(Push(r.ring, regs[0].data), r.accepted + [regs[0].data], regs[0].avail, true);
      assert Taken(regs[1..], free - 1, n - 1);
      ReceiveTakes(next, regs[1..], n - 1);
      OneMoreByte(r.accepted, regs, n);
      OneMoreByte(Buffered(r.ring), regs, n);
    }
  }

  /**
   A round with RI, on the ring and the masks: the valid bytes that fit are accepted behind those
   held, and the receive interrupt goes off if and only if the last read announced more data.
   */
  lemma ReceiveRoundIs(rx: Rx, regs: seq<Reg>, n: nat)
    requires IsRing(rx.ring) && Taken(regs, |rx.ring.buf| - 1 - |Buffered(rx.ring)|, n)
    ensures var rx' := RxIrq(rx, regs);
            && IsRing(rx'.ring) && |rx'.ring.buf| == |rx.ring.buf| && rx'.ring.out == rx.ring.out
            && rx'.accepted == rx.accepted + Bytes(regs[..n])
            && Buffered(rx'.ring) == Buffered(rx.ring) + Bytes(regs[..n])
            && (rx'.re <==> rx.re && !Announced(regs, |rx.ring.buf| - 1 - |Buffered(rx.ring)|, n))
            && rx'.reader == rx.reader && rx'.enabling == rx.enabling && rx'.returned == rx.returned
  {
    ReceiveTakes(Received(rx.ring, rx.accepted, true, true), regs, n);
  }

  /** There is such a number of bytes, and only one. */
  lemma {:induction false} TakenExists(regs: seq<Reg>, free: nat) returns (n: nat)
    requires free <= |regs|
    ensures Taken(regs, free, n)
    ensures forall m: nat | Taken(regs, free, m) :: m == n
  {
    n := 0;
    while n < free && regs[n].valid
      invariant n <= free && forall i | 0 <= i < n :: regs[i].valid
    {
      n := n + 1;
    }
  }

  /** A round that ends with the ring full and data announced leaves the interrupt off. */
  lemma FullTurnsOff(rx: Rx, regs: seq<Reg>, n: nat)
    requires IsRing(rx.ring) && Taken(regs, |rx.ring.buf| - 1 - |Buffered(rx.ring)|, n)
    requires |Buffered(rx.ring)| + n == |rx.ring.buf| - 1 && (n > 0 ==> regs[n - 1].avail)
    ensures IsRing(RxIrq(rx, regs).ring) && |Buffered(RxIrq(rx, regs).ring)| == |rx.ring.buf| - 1
    ensures !RxIrq(rx, regs).re
  {
    ReceiveRoundIs(rx, regs, n);
  }

  /** The interrupt routine only adds bytes behind those the reader is looking at. */
  lemma ReaderKept(r: Ring, r': Ring, reader: Reader)
    requires IsRing(r) && IsRing(r') && |r'.buf| == |r.buf| && r'.out == r.out && Buffered(r) <= Buffered(r')
    requires ReaderOk(r, reader)
    ensures ReaderOk(r', reader)
  { }

  lemma PrefixOf(a: seq<Byte>, x: seq<Byte>, y: seq<Byte>)
    requires a + x <= a + y
    ensures x <= y
  {
    forall i | 0 <= i < |x| ensures x[i] == y[i] {
      assert (a + x)[|a| + i] == (a + y)[|a| + i];
    }
  }

  lemma RxIrqKeeps(rx: Rx, regs: seq<Reg>)
    requires RxOk(rx) && |regs| >= |rx.ring.buf|
    ensures RxOk(RxIrq(rx, regs)) && (Honest(regs) && !rx.misled ==> !RxIrq(rx, regs).misled)
    ensures rx.accepted <= RxIrq(rx, regs).accepted && Handed(RxIrq(rx, regs)) == Handed(rx)
  {
    var r := Received(rx.ring, rx.accepted, true, true);
    ReceiveKeeps(r, regs, Handed(rx));
    ReceiveStops(r, regs);
    var rx' := RxIrq(rx, regs);
    PrefixOf(Handed(rx), Buffered(rx.ring), Buffered(rx'.ring));
    ReaderKept(rx.ring, rx'.ring, rx.reader);
    if !rx.re && NoEnableDue(rx) {
      FullIs(rx.ring);
      FullIs(rx'.ring);
    }
  }

  lemma TakeByteKeeps(rx: Rx)
    requires RxOk(rx) && RxEnabled(rx, TakeByte)
    ensures RxOk(RxNext(rx, TakeByte)) && Handed(RxNext(rx, TakeByte)) == Handed(rx)
  {
    var k, s := |rx.reader.copied|, Buffered(rx.ring);
    assert s[k] == rx.ring.buf[rx.reader.out + k];
    assert s[..k + 1] == s[..k] + [s[k]];
  }

  lemma Regroup(a: seq<Byte>, b: seq<Byte>, c: seq<Byte>)
    ensures (a + b) + c == a + (b + c)
  { }

  lemma PublishOutKeeps(rx: Rx)
    requires RxOk(rx) && RxEnabled(rx, PublishOut)
    ensures RxOk(RxNext(rx, PublishOut))
  {
    var s := Buffered(rx.ring);
    DropRemoves(rx.ring, rx.reader.n);
    assert s == rx.reader.copied + s[rx.reader.n..];
    HandedGrows(Flatten(rx.returned), rx.reader.buffer, rx.reader.copied, s[rx.reader.n..], s);
    assert |RxNext(rx, PublishOut).reader.buffer| > 0;
  }

  lemma HandedGrows(past: seq<Byte>, buffer: seq<Byte>, copied: seq<Byte>, rest: seq<Byte>, s: seq<Byte>)
    requires s == copied + rest
    ensures (past + (buffer + copied)) + rest == (past + buffer) + s
  { }

  lemma ReadReturnKeeps(rx: Rx)
    requires RxOk(rx) && RxEnabled(rx, ReadReturn)
    ensures RxOk(RxNext(rx, ReadReturn)) && Handed(RxNext(rx, ReadReturn)) == Handed(rx)
  {
    hide Flatten, Full, Buffered;
    FlattenLast(rx.returned, rx.reader.buffer);
  }

  lemma RxStepKeeps(rx: Rx, step: RxStep)
    requires RxOk(rx) && RxEnabled(rx, step)
    ensures RxOk(RxNext(rx, step))
  {
    match step {
      case TakeByte => TakeByteKeeps(rx);
      case PublishOut => PublishOutKeeps(rx);
      case ReadReturn => ReadReturnKeeps(rx);
      case _ => assert Handed(RxNext(rx, step)) == Handed(rx);
    }
  }

  lemma {:induction false} SendKeeps(s: Sent)
    requires IsRing(s.ring)
    ensures var s' := Send(s);
            && IsRing(s'.ring) && s'.ring.buf == s.ring.buf && s'.ring.inn == s.ring.inn
            && s'.sent + Buffered(s'.ring) == s.sent + Buffered(s.ring)
            && |Buffered(s'.ring)| <= |Buffered(s.ring)|
            && (s'.space > 0 ==> Buffered(s'.ring) == [])
    decreases s.space
  {
    if s.space > 0 && s.ring.out != s.ring.inn {
      DropRemoves(s.ring, 1);
      var all := Buffered(s.ring);
      assert all[0] == s.ring.buf[s.ring.out];
      assert all == [all[0]] + all[1..];
      Regroup(s.sent, [all[0]], all[1..]);
      SendKeeps(Sent(Drop(s.ring, 1), s.sent + [s.ring.buf[s.ring.out]], s.space - 1));
    }
  }

  lemma OneMoreTaken(before: seq<Byte>, held: seq<Byte>, m: nat)
    requires 1 <= m <= |held|
    ensures (before + [held[0]]) + held[1..][..m - 1] == before + held[..m]
    ensures held[1..][m - 1..] == held[m..]
  {
    assert [held[0]] + held[1..][..m - 1] == held[..m];
    Regroup(before, [held[0]], held[1..][..m - 1]);
  }

  /** The loop moves as many bytes as there are and as fit into the FIFO, oldest first. */
  lemma {:induction false} SendMoves(s: Sent)
    requires IsRing(s.ring)
    ensures var s', m := Send(s), Min(s.space, |Buffered(s.ring)|);
            && IsRing(s'.ring)
            && s'.sent == s.sent + Buffered(s.ring)[..m] && Buffered(s'.ring) == Buffered(s.ring)[m..]
            && s'.space == s.space - m
    decreases s.space
  {
    hide Buffered, Drop;
    var held, m := Buffered(s.ring), Min(s.space, |Buffered(s.ring)|);
    if s.space > 0 && s.ring.out != s.ring.inn {
      DropRemoves(s.ring, 1);
      assert held[0] == s.ring.buf[s.ring.out];
      SendMoves(Sent(Drop(s.ring, 1), s.sent + [held[0]], s.space - 1));
      OneMoreTaken(s.sent, held, m);
    } else {
      assert m == 0;
    }
  }

  /**
   A round with WI, on the ring and the masks: with at least WSPACE bytes held, exactly WSPACE are
   sent and the mask stays; with fewer, all are sent and the transmit interrupt goes off.
   */
  lemma SendRoundIs(tx: Tx, wspace: nat)
    requires IsRing(tx.ring)
    ensures var tx', held := TxIrq(tx, wspace), Buffered(tx.ring);
            && IsRing(tx'.ring)
            && (|held| >= wspace ==>
                  tx'.sent == tx.sent + held[..wspace] && Buffered(tx'.ring) == held[wspace..] && tx'.we == tx.we)
            && (|held| < wspace ==>
                  tx'.sent == tx.sent + held && Buffered(tx'.ring) == [] && !tx'.we)
            && tx'.writer == tx.writer && tx'.returned == tx.returned
  {
    SendMoves(Sent(tx.ring, tx.sent, wspace));
  }

  lemma TxIrqKeeps(tx: Tx, wspace: nat)
    requires TxOk(tx)
    ensures TxOk(TxIrq(tx, wspace)) && Published(TxIrq(tx, wspace)) == Published(tx)
  {
    SendKeeps(Sent(tx.ring, tx.sent, wspace));
  }

  lemma PutByteRing(r: Ring, w: Writer)
    requires IsRing(r) && WriterOk(r, w) && w.Putting? && w.k < w.n
    ensures var r' := r.(buf := r.buf[w.inn + w.k := w.data[w.done + w.k]]);
            IsRing(r') && Buffered(r') == Buffered(r) && WriterOk(r', w.(k := w.k + 1))
  {
    hide Buffered;
    assert At(|r.buf|, r.inn, w.k) == w.inn + w.k;
    PutOutside(r, w.k, w.data[w.done + w.k]);
    OneMore(r.buf, r.inn, w.data, w.done, w.k);
  }

  lemma PutByteKeeps(tx: Tx)
    requires TxOk(tx) && TxEnabled(tx, PutByte)
    ensures TxOk(TxNext(tx, PutByte)) && Published(TxNext(tx, PutByte)) == Published(tx)
  {
    var w, r := tx.writer, tx.ring;
    PutByteRing(r, w);
    var r' := r.(buf := r.buf[w.inn + w.k := w.data[w.done + w.k]]);
    assert TxNext(tx, PutByte) == tx.(ring := r', writer := w.(k := w.k + 1));
  }

  lemma OneMore(buf: seq<Byte>, i: nat, data: seq<Byte>, j: nat, k: nat)
    requires i + k < |buf| && j + k < |data| && buf[i..i + k] == data[j..j + k]
    ensures buf[i + k := data[j + k]][i..i + (k + 1)] == data[j..j + (k + 1)]
  {
    var buf' := buf[i + k := data[j + k]];
    assert buf'[i..i + k + 1] == buf[i..i + k] + [data[j + k]];
    assert data[j..j + k + 1] == data[j..j + k] + [data[j + k]];
  }

  /** The ring after the writer has moved tx_in over the bytes it has put. */
  lemma PublishInRing(r: Ring, w: Writer)
    requires IsRing(r) && WriterOk(r, w) && w.Putting? && w.k == w.n
    ensures var r' := r.(inn := Advance(|r.buf|, w.inn, w.n));
            IsRing(r') && Buffered(r') == Buffered(r) + w.data[w.done..w.done + w.n]
  {
    var chunk := w.data[w.done..w.done + w.n];
    forall k | 0 <= k < w.n ensures r.buf[At(|r.buf|, r.inn, k)] == chunk[k] {
      assert r.buf[r.inn..r.inn + w.k][k] == chunk[k];
    }
    Appended(r, w.n, chunk);
  }

  lemma PublishInKeeps(tx: Tx)
    requires TxOk(tx) && TxEnabled(tx, PublishIn)
    ensures TxOk(TxNext(tx, PublishIn))
  {
    var w, past := tx.writer, Flatten(tx.returned);
    var chunk := w.data[w.done..w.done + w.n];
    PublishInRing(tx.ring, w);
    assert w.data[..w.done + w.n] == w.data[..w.done] + chunk;
    Regroup(past, w.data[..w.done], chunk);
    Regroup(tx.sent, Buffered(tx.ring), chunk);
  }

  lemma WriteReturnKeeps(tx: Tx)
    requires TxOk(tx) && TxEnabled(tx, WriteReturn)
    ensures TxOk(TxNext(tx, WriteReturn)) && Published(TxNext(tx, WriteReturn)) == Published(tx)
  {
    FlattenLast(tx.returned, tx.writer.data[..tx.writer.done]);
  }

  lemma TxStepKeeps(tx: Tx, step: TxStep)
    requires TxOk(tx) && TxEnabled(tx, step)
    ensures TxOk(TxNext(tx, step))
  {
    match step {
      case PutByte => PutByteKeeps(tx);
      case PublishIn => PublishInKeeps(tx);
      case WriteReturn => WriteReturnKeeps(tx);
      case _ => assert Published(TxNext(tx, step)) == Published(tx);
    }
  }

  // ---------------------------------------------------------------- runs

  ghost predicate Inv(u: Uart) { RxOk(u.rx) && TxOk(u.tx) }

  ghost predicate Enabled(u: Uart, step: Step) {
    match step
    case Irq(ri, wi, regs, wspace) => |regs| >= |u.rx.ring.buf|
    case ReaderStep(r) => RxEnabled(u.rx, r)
    case WriterStep(w) => TxEnabled(u.tx, w)
  }

  ghost function Next(u: Uart, step: Step): Uart
    requires Inv(u) && Enabled(u, step)
  {
    match step
    case Irq(ri, wi, regs, wspace) =>
      Uart(if ri then RxIrq(u.rx, regs) else u.rx, if wi then TxIrq(u.tx, wspace) else u.tx)
    case ReaderStep(r) => u.(rx := RxNext(u.rx, r))
    case WriterStep(w) => u.(tx := TxNext(u.tx, w))
  }

  /** A round of the interrupt routine does the half for RI and the half for WI exactly when they are pending. */
  lemma RoundIs(u: Uart, ri: bool, wi: bool, regs: seq<Reg>, wspace: nat, n: nat)
    requires Inv(u) && |regs| >= |u.rx.ring.buf|
    requires Taken(regs, |u.rx.ring.buf| - 1 - |Buffered(u.rx.ring)|, n)
    ensures var rx, rx' := u.rx, Next(u, Irq(ri, wi, regs, wspace)).rx;
            && (!ri ==> rx' == rx)
            && (ri ==>
                  && rx'.accepted == rx.accepted + Bytes(regs[..n])
                  && (rx'.re <==> rx.re && !Announced(regs, |rx.ring.buf| - 1 - |Buffered(rx.ring)|, n)))
    ensures var tx, tx', held := u.tx, Next(u, Irq(ri, wi, regs, wspace)).tx, Buffered(u.tx.ring);
            && (!wi ==> tx' == tx)
            && (wi ==>
                  && tx'.sent == tx.sent + held[..Min(wspace, |held|)]
                  && (tx'.we <==> tx.we && |held| >= wspace))
  {
    ReceiveRoundIs(u.rx, regs, n);
    SendRoundIs(u.tx, wspace);
  }

  /** A reader inside its call has just one step to take, except that a starved one may go on or give up. */
  lemma ReaderGoesOn(rx: Rx, step: RxStep, step': RxStep)
    requires RxOk(rx) && !rx.reader.NoReader?
    ensures exists s: RxStep :: !s.EnableRead? && RxEnabled(rx, s)
    ensures RxEnabled(rx, step) && RxEnabled(rx, step') && !step.EnableRead? && !step'.EnableRead?
            ==> step == step' || {step, step'} == {Retry, GiveUp}
  {
    var s := match rx.reader
             case Looking(space, _) => if space > 0 then LookIn else GiveUp
             case SawIn(_, _, _) => LookOut
             case Taking(_, _, _, n, copied) => if |copied| < n then TakeByte else PublishOut
             case Starved(_, _) => Retry
             case _ => ReadReturn;
    assert RxEnabled(rx, s);
  }

  /** So has a writer, except that one that has not written everything may go on or return. */
  lemma WriterGoesOn(tx: Tx, step: TxStep, step': TxStep)
    requires TxOk(tx) && !tx.writer.NoWriter?
    ensures exists s :: TxEnabled(tx, s)
    ensures TxEnabled(tx, step) && TxEnabled(tx, step') ==> step == step' || {step, step'} == {Again, WriteReturn}
    ensures tx.writer.Kicked? && tx.writer.done == |tx.writer.data| ==> !TxEnabled(tx, Again)
  {
    var s := match tx.writer
             case Putting(_, _, _, _, n, k) => if k < n then PutByte else PublishIn
             case Kicking(_, _, _) => Kick
             case Kicked(_, _) => WriteReturn
             case _ => LookBoth;
    assert TxEnabled(tx, s);
  }

  lemma StepKeeps(u: Uart, step: Step)
    requires Inv(u) && Enabled(u, step)
    ensures Inv(Next(u, step))
    ensures !u.rx.misled && (step.Irq? ==> Honest(step.regs)) ==> !Next(u, step).rx.misled
  {
    match step {
      case Irq(ri, wi, regs, wspace) =>
        RxIrqKeeps(u.rx, regs);
        TxIrqKeeps(u.tx, wspace);
      case ReaderStep(r) => RxStepKeeps(u.rx, r);
      case WriterStep(w) => TxStepKeeps(u.tx, w);
    }
  }

  /** altera_avalon_jtag_uart_init, for buffers of any contents and length. */
  ghost function Init(rxBuf: seq<Byte>, txBuf: seq<Byte>): Uart {
    Uart(Rx(Ring(rxBuf, 0, 0), true, NoReader, 0, [], [], false), Tx(Ring(txBuf, 0, 0), false, NoWriter, [], []))
  }

  ghost predicate CanRun(u: Uart, steps: seq<Step>)
    decreases |steps|
  {
    steps == [] || (Inv(u) && Enabled(u, steps[0]) && CanRun(Next(u, steps[0]), steps[1..]))
  }

  ghost function After(u: Uart, steps: seq<Step>): Uart
    requires CanRun(u, steps)
    decreases |steps|
  {
    if steps == [] then u else After(Next(u, steps[0]), steps[1..])
  }

  /** The device is honest in every round of the interrupt routine. */
  ghost predicate AllHonest(steps: seq<Step>) {
    forall i | 0 <= i < |steps| && steps[i].Irq? :: Honest(steps[i].regs)
  }

  lemma {:induction false} RunKeeps(u: Uart, steps: seq<Step>)
    requires Inv(u) && CanRun(u, steps)
    ensures Inv(After(u, steps))
    ensures !u.rx.misled && AllHonest(steps) ==> !After(u, steps).rx.misled
    decreases |steps|
  {
    if steps != [] {
      StepKeeps(u, steps[0]);
      assert AllHonest(steps) ==> AllHonest(steps[1..]);
      RunKeeps(Next(u, steps[0]), steps[1..]);
    }
  }

  lemma StepThenRun(u: Uart, step: Step, rest: seq<Step>)
    requires Inv(u) && Enabled(u, step) && CanRun(Next(u, step), rest)
    ensures CanRun(u, [step] + rest)
  {
    assert ([step] + rest)[1..] == rest;
  }

  /** A run from a state in order can go on with every enabled step. */
  lemma {:induction false} RunExtends(u: Uart, steps: seq<Step>, step: Step)
    requires Inv(u) && CanRun(u, steps) && Enabled(After(u, steps), step)
    ensures CanRun(u, steps + [step])
    decreases |steps|
  {
    hide Inv, Next, Enabled;
    if steps == [] {
      StepThenRun(u, step, []);
      assert steps + [step] == [step] + [];
    } else {
      var next := Next(u, steps[0]);
      StepKeeps(u, steps[0]);
      RunExtends(next, steps[1..], step);
      StepThenRun(u, steps[0], steps[1..] + [step]);
      assert steps + [step] == [steps[0]] + (steps[1..] + [step]);
    }
  }

  /**
   After every run: the bytes the reads have handed out, followed by those still buffered, are
   the bytes the interrupt routine has accepted; and the bytes put on the data register,
   followed by those still buffered, are the accepted prefixes of all the writes. No buffer
   holds more than its length less one.
   */
  lemma NothingLost(rxBuf: seq<Byte>, txBuf: seq<Byte>, steps: seq<Step>)
    requires |rxBuf| >= 2 && |txBuf| >= 2 && CanRun(Init(rxBuf, txBuf), steps)
    ensures var u := After(Init(rxBuf, txBuf), steps);
            && IsRing(u.rx.ring) && IsRing(u.tx.ring)
            && Handed(u.rx) + Buffered(u.rx.ring) == u.rx.accepted
            && u.tx.sent + Buffered(u.tx.ring) == Published(u.tx)
            && |Buffered(u.rx.ring)| < |u.rx.ring.buf| && |Buffered(u.tx.ring)| < |u.tx.ring.buf|
  {
    var u := Init(rxBuf, txBuf);
    assert Flatten([]) == [];
    RunKeeps(u, steps);
  }

  /**
   After every run: data in the transmit buffer is not left behind with its interrupt disabled,
   unless the writer is still to enable it; and while the receive interrupt is off and no reader
   is still to enable it, the buffer is full if and only if the interrupt routine has not been
   misled by a device that announces more data along with data that is not valid.
   */
  lemma NothingStranded(rxBuf: seq<Byte>, txBuf: seq<Byte>, steps: seq<Step>)
    requires |rxBuf| >= 2 && |txBuf| >= 2 && CanRun(Init(rxBuf, txBuf), steps)
    ensures var u := After(Init(rxBuf, txBuf), steps);
            && IsRing(u.rx.ring) && IsRing(u.tx.ring)
            && (u.tx.ring.inn != u.tx.ring.out && !KickDue(u.tx.writer) ==> u.tx.we)
            && (!u.rx.re && NoEnableDue(u.rx) ==> (|Buffered(u.rx.ring)| == |u.rx.ring.buf| - 1 <==> !u.rx.misled))
            && (AllHonest(steps) ==> !u.rx.misled)
  {
    var u := Init(rxBuf, txBuf);
    assert Flatten([]) == [];
    RunKeeps(u, steps);
    FullIs(After(u, steps).rx.ring);
  }

  /** One round with such a device turns the receive interrupt off for an empty buffer, and nobody will enable it. */
  lemma MisledIsReachable(rxBuf: seq<Byte>, txBuf: seq<Byte>)
    requires |rxBuf| >= 2 && |txBuf| >= 2
    ensures var steps := [Irq(true, false, seq(|rxBuf|, _ => Reg(false, 0, true)), 0)];
            && CanRun(Init(rxBuf, txBuf), steps)
            && var rx := After(Init(rxBuf, txBuf), steps).rx;
               IsRing(rx.ring) && !rx.re && NoEnableDue(rx) && Buffered(rx.ring) == []
  {
    var u, step := Init(rxBuf, txBuf), Irq(true, false, seq(|rxBuf|, _ => Reg(false, 0, true)), 0);
    assert Flatten([]) == [];
    StepKeeps(u, step);
    FullIs(u.rx.ring);
    var r := Received(u.rx.ring, [], true, true);
    assert Receive(r, step.regs) == r.(avail := true, valid := false);
    assert After(u, [step]) == Next(u, step);
  }
}
