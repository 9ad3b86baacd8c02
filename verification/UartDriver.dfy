/**
 The JTAG UART fast driver on its arrays and indices. The interrupt routine and every single
 access of a task are proved to take the steps of UartRuns; the copying loops of the two tasks
 are also proved to move as much as there is, or as fits, when nothing interrupts them.
 */
module UartDriver {
  import opened Rings
  import opened UartRuns

  class JtagUart {
    const rx_buf: array<Byte>
    const tx_buf: array<Byte>
    var rx_in: nat
    var rx_out: nat
    var tx_in: nat
    var tx_out: nat
    var re: bool                      // ALTERA_AVALON_JTAG_UART_CONTROL_RE_MSK in irq_enable
    var we: bool                      // ALTERA_AVALON_JTAG_UART_CONTROL_WE_MSK in irq_enable

    ghost var accepted: seq<Byte>     // read from the data register and put into rx_buf
    ghost var misled: bool            // see UartRuns.Rx
    var sent: seq<Byte>               // written to the data register

    ghost function RxRing(): Ring
      reads `rx_in, `rx_out, rx_buf
    {
      Ring(rx_buf[..], rx_in, rx_out)
    }

    ghost function TxRing(): Ring
      reads `tx_in, `tx_out, tx_buf
    {
      Ring(tx_buf[..], tx_in, tx_out)
    }

    ghost predicate Valid()
      reads this, rx_buf, tx_buf
    {
      rx_buf != tx_buf && IsRing(RxRing()) && IsRing(TxRing())
    }

    /** altera_avalon_jtag_uart_init. */
    constructor (len: nat)
      requires len >= 2
      ensures Valid() && fresh(rx_buf) && fresh(tx_buf) && rx_buf.Length == tx_buf.Length == len
      ensures Buffered(RxRing()) == [] && Buffered(TxRing()) == [] && re && !we && accepted == [] && sent == []
      ensures Uart(RxWith(NoReader, 0, []), TxWith(NoWriter, [])) == Init(rx_buf[..], tx_buf[..])
    {
      rx_buf := new Byte[len](_ => 0);
      tx_buf := new Byte[len](_ => 0);
      rx_in, rx_out, tx_in, tx_out := 0, 0, 0, 0;
      re, we := true, false;
      accepted, sent, misled := [], [], false;
    }

    ghost function RxWith(reader: Reader, enabling: nat, returned: seq<seq<Byte>>): Rx
      reads this, rx_buf
    {
      Rx(RxRing(), re, reader, enabling, accepted, returned, misled)
    }

    ghost function TxWith(writer: Writer, returned: seq<seq<Byte>>): Tx
      reads this, tx_buf
    {
      Tx(TxRing(), we, writer, sent, returned)
    }

    // -------------------------------------------------------------- the interrupt routine

    /** The loop over the data register. */
    method ReceiveLoop(regs: seq<Reg>) returns (avail: bool, ghost valid: bool)
      requires Valid() && |regs| >= rx_buf.Length
      modifies `rx_in, `accepted, rx_buf
      ensures Valid()
      ensures Received(RxRing(), accepted, avail, valid)
           == Receive(Received(old(RxRing()), old(accepted), true, true), regs)
    {
      avail, valid := true, true;
      var i := 0;
      while i < |regs|
        invariant i <= |regs| && Valid() && valid
        invariant Receive(Received(RxRing(), accepted, avail, valid), regs[i..])
               == Receive(Received(old(RxRing()), old(accepted), true, true), regs)
        decreases |regs| - i
      {
        var next := (rx_in + 1) % rx_buf.Length;
        if next == rx_out { break; }
        avail := regs[i].avail;
        if !regs[i].valid {
          valid := false;
          return;
        }
        PushAppends(RxRing(), regs[i].data);
        ghost var r := RxRing();
        rx_buf[rx_in] := regs[i].data;
        rx_in := next;
        accepted := accepted + [regs[i].data];
        assert RxRing() == Push(r, regs[i].data);
        assert regs[i..][1..] == regs[i + 1..];
        i := i + 1;
      }
    }

    /** The loop that fills the transmit FIFO. */
    method SendLoop(wspace: nat) returns (space: nat)
      requires Valid()
      modifies `tx_out, `sent
      ensures Valid()
      ensures Sent(TxRing(), sent, space) == Send(Sent(old(TxRing()), old(sent), wspace))
    {
      space := wspace;
      while space > 0 && tx_out != tx_in
        invariant Valid()
        invariant Send(Sent(TxRing(), sent, space)) == Send(Sent(old(TxRing()), old(sent), wspace))
        decreases space
      {
        sent := sent + [tx_buf[tx_out]];
        tx_out := (tx_out + 1) % tx_buf.Length;
        space := space - 1;
      }
    }

    /** The valid bytes that fit are accepted behind those held; RE goes off if and only if more was announced. */
    ghost predicate ReceiveDone(held: seq<Byte>, wasRe: bool, before: seq<Byte>, regs: seq<Reg>)
      requires IsRing(RxRing()) && |held| < rx_buf.Length
      reads `rx_in, `rx_out, `accepted, `re, rx_buf
    {
      forall n: nat | Taken(regs, rx_buf.Length - 1 - |held|, n) ::
        && accepted == before + Bytes(regs[..n]) && Buffered(RxRing()) == held + Bytes(regs[..n])
        && (re <==> wasRe && !Announced(regs, rx_buf.Length - 1 - |held|, n))
    }

    lemma ReceiveRoundDone(rx: Rx, regs: seq<Reg>)
      requires IsRing(RxRing()) && IsRing(rx.ring) && |rx.ring.buf| == rx_buf.Length
      requires RxWith(rx.reader, rx.enabling, rx.returned) == RxIrq(rx, regs)
      ensures ReceiveDone(Buffered(rx.ring), rx.re, rx.accepted, regs)
    {
      hide RxIrq;
      forall n: nat | Taken(regs, rx_buf.Length - 1 - |Buffered(rx.ring)|, n)
        ensures accepted == rx.accepted + Bytes(regs[..n])
             && Buffered(RxRing()) == Buffered(rx.ring) + Bytes(regs[..n])
             && (re <==> rx.re && !Announced(regs, rx_buf.Length - 1 - |Buffered(rx.ring)|, n))
      {
        ReceiveRoundIs(rx, regs, n);
      }
    }

    /** The bytes held go out, oldest first, WSPACE of them at most; WE goes off if and only if they are fewer. */
    ghost predicate SendDone(held: seq<Byte>, wasWe: bool, before: seq<Byte>, wspace: nat)
      requires IsRing(TxRing())
      reads `tx_in, `tx_out, `sent, `we, tx_buf
    {
      && (|held| >= wspace ==> sent == before + held[..wspace] && Buffered(TxRing()) == held[wspace..])
      && (|held| < wspace ==> sent == before + held && Buffered(TxRing()) == [])
      && (we <==> wasWe && |held| >= wspace)
    }

    /** The read half of a round: `regs` are the values the data register will return. */
    method ReceiveRound(regs: seq<Reg>)
      requires Valid() && |regs| >= rx_buf.Length
      modifies `rx_in, `accepted, `re, `misled, rx_buf
      ensures Valid()
      ensures forall reader, n, done ::
                Rx(RxRing(), re, reader, n, accepted, done, misled)
                == RxIrq(Rx(old(RxRing()), old(re), reader, n, old(accepted), done, old(misled)), regs)
      ensures ReceiveDone(old(Buffered(RxRing())), old(re), old(accepted), regs)
    {
      var avail;
      ghost var valid;
      avail, valid := ReceiveLoop(regs);
      misled := (misled || (avail && !valid)) && !Full(RxRing());
      if avail {
        re := false;
      }
      ReceiveRoundDone(old(RxWith(NoReader, 0, [])), regs);
    }

    /** The write half. */
    method SendRound(wspace: nat)
      requires Valid()
      modifies `tx_out, `sent, `we
      ensures Valid()
      ensures forall writer, done ::
                Tx(TxRing(), we, writer, sent, done)
                == TxIrq(Tx(old(TxRing()), old(we), writer, old(sent), done), wspace)
      ensures SendDone(old(Buffered(TxRing())), old(we), old(sent), wspace)
    {
      var space := SendLoop(wspace);
      if space > 0 {
        we := false;
      }
      SendRoundIs(Tx(old(TxRing()), old(we), NoWriter, old(sent), []), wspace);
    }

    /** One round of altera_avalon_jtag_uart_irq. */
    method IrqRound(ri: bool, wi: bool, regs: seq<Reg>, wspace: nat)
      requires Valid() && |regs| >= rx_buf.Length
      modifies this, rx_buf
      ensures Valid()
      ensures forall reader, n, done ::
                Rx(RxRing(), re, reader, n, accepted, done, misled)
                == (var rx := Rx(old(RxRing()), old(re), reader, n, old(accepted), done, old(misled));
                    if ri then RxIrq(rx, regs) else rx)
      ensures forall writer, done ::
                Tx(TxRing(), we, writer, sent, done)
                == (var tx := Tx(old(TxRing()), old(we), writer, old(sent), done); if wi then TxIrq(tx, wspace) else tx)
      ensures if ri then ReceiveDone(old(Buffered(RxRing())), old(re), old(accepted), regs)
              else RxRing() == old(RxRing()) && re == old(re) && accepted == old(accepted)
      ensures if wi then SendDone(old(Buffered(TxRing())), old(we), old(sent), wspace)
              else TxRing() == old(TxRing()) && we == old(we) && sent == old(sent)
    {
      hide RxIrq, TxIrq, ReceiveDone, SendDone;
      if ri {
        ReceiveRound(regs);
      }
      if wi {
        SendRound(wspace);
      }
    }

    // -------------------------------------------------------------- the tasks

    /** The reader, which has read rx_in, reads rx_out and decides how much to copy. */
    method LookAtOut(inn: nat, space: nat, ghost buffer: seq<Byte>, ghost enabling: nat, ghost returned: seq<seq<Byte>>)
      returns (out: nat, n: nat)
      requires Valid() && RxOk(RxWith(SawIn(space, buffer, inn), enabling, returned))
      ensures RxNext(RxWith(SawIn(space, buffer, inn), enabling, returned), LookOut)
           == RxWith(if n > 0 then Taking(space, buffer, out, n, [])
                     else if buffer != [] then Leaving(buffer) else Starved(space, []), enabling, returned)
    {
      out := rx_out;
      n := ReadRun(rx_buf.Length, inn, out);
      if n > space {
        n := space;
      }
    }

    /** The reader copies the next byte. */
    method CopyOut(out: nat, k: nat, ghost r: Reader, ghost enabling: nat, ghost returned: seq<seq<Byte>>)
      returns (b: Byte)
      requires Valid() && RxOk(RxWith(r, enabling, returned)) && RxEnabled(RxWith(r, enabling, returned), TakeByte)
      requires out == r.out && k == |r.copied|
      ensures RxNext(RxWith(r, enabling, returned), TakeByte)
           == RxWith(r.(copied := r.copied + [b]), enabling, returned)
    {
      b := rx_buf[out + k];
    }

    /** The reader moves rx_out over the bytes it has copied. */
    method MoveOut(out: nat, n: nat, ghost r: Reader, ghost enabling: nat, ghost returned: seq<seq<Byte>>)
      requires Valid() && RxOk(RxWith(r, enabling, returned)) && RxEnabled(RxWith(r, enabling, returned), PublishOut)
      requires out == r.out && n == r.n
      modifies `rx_out
      ensures Valid()
      ensures RxWith(Looking(r.space - n, r.buffer + r.copied), enabling, returned)
           == RxNext(old(RxWith(r, enabling, returned)), PublishOut)
    {
      rx_out := (out + n) % rx_buf.Length;
    }

    /** A task that has read something enables the receive interrupt. */
    method EnableReceive(ghost r: Reader, ghost enabling: nat, ghost returned: seq<seq<Byte>>)
      requires Valid() && RxOk(RxWith(r, enabling, returned)) && enabling > 0
      modifies `re, `misled
      ensures Valid()
      ensures RxWith(r, enabling - 1, returned) == RxNext(old(RxWith(r, enabling, returned)), EnableRead)
    {
      re := true;
      misled := false;
    }

    /** The writer reads both indices and decides how much to copy. */
    method LookAtBoth(count: nat, ghost w: Writer, ghost returned: seq<seq<Byte>>) returns (inn: nat, n: nat)
      requires Valid() && TxOk(TxWith(w, returned)) && w.Filling? && count == |w.data| - w.done
      ensures TxNext(TxWith(w, returned), LookBoth)
           == TxWith(if n > 0 then Putting(w.data, w.done, w.dirty, inn, n, 0)
                     else Kicking(w.data, w.done, w.dirty), returned)
    {
      inn, n := tx_in, 0;
      if count > 0 {
        n := WriteRun(tx_buf.Length, inn, tx_out);
        if n > count {
          n := count;
        }
      }
    }

    /** The writer copies the next byte. */
    method CopyIn(inn: nat, k: nat, b: Byte, ghost w: Writer, ghost returned: seq<seq<Byte>>)
      requires Valid() && TxOk(TxWith(w, returned)) && TxEnabled(TxWith(w, returned), PutByte)
      requires inn == w.inn && k == w.k && b == w.data[w.done + k]
      modifies tx_buf
      ensures Valid() && TxWith(w.(k := k + 1), returned) == TxNext(old(TxWith(w, returned)), PutByte)
    {
      tx_buf[inn + k] := b;
      assert tx_buf[..] == old(tx_buf[..])[inn + k := b];
    }

    /** The writer moves tx_in over the bytes it has copied. */
    method MoveIn(inn: nat, n: nat, ghost w: Writer, ghost returned: seq<seq<Byte>>)
      requires Valid() && TxOk(TxWith(w, returned)) && TxEnabled(TxWith(w, returned), PublishIn)
      requires inn == w.inn && n == w.n
      modifies `tx_in
      ensures Valid()
      ensures TxWith(Filling(w.data, w.done + n, true), returned) == TxNext(old(TxWith(w, returned)), PublishIn)
    {
      tx_in := (inn + n) % tx_buf.Length;
    }

    /** The writer enables the transmit interrupt. */
    method EnableTransmit(ghost w: Writer, ghost returned: seq<seq<Byte>>)
      requires Valid() && TxOk(TxWith(w, returned)) && w.Kicking?
      modifies `we
      ensures Valid() && TxWith(Kicked(w.data, w.done), returned) == TxNext(old(TxWith(w, returned)), Kick)
    {
      we := true;
    }

    /** `memcpy(a + i, data, n)`. */
    static method CopyInto(a: array<Byte>, i: nat, data: seq<Byte>)
      requires i + |data| <= a.Length
      modifies a
      ensures a[..] == old(a[..i]) + data + old(a[i + |data|..])
    {
      for k := 0 to |data|
        invariant a[..i] == old(a[..i]) && a[i..i + k] == data[..k] && a[i + |data|..] == old(a[i + |data|..])
      {
        a[i + k] := data[k];
        assert a[i..i + k + 1] == a[i..i + k] + [data[k]];
      }
      assert data[..|data|] == data;
    }

    /** The inner loop of altera_avalon_jtag_uart_write. */
    method Fill(data: seq<Byte>) returns (done: nat)
      requires Valid()
      modifies `tx_in, tx_buf
      ensures Valid()
      ensures done == Min(|data|, tx_buf.Length - 1 - |old(Buffered(TxRing()))|)
      ensures Buffered(TxRing()) == old(Buffered(TxRing())) + data[..done]
    {
      done := 0;
      ghost var before := Buffered(TxRing());
      while done < |data|
        invariant Valid() && done <= |data| && Buffered(TxRing()) == before + data[..done]
        decreases |data| - done
      {
        var n := WriteRun(tx_buf.Length, tx_in, tx_out);
        if n == 0 { break; }
        n := Min(n, |data| - done);
        PutRun(data[done..done + n]);
        assert data[..done + n] == data[..done] + data[done..done + n];
        assert before + data[..done + n] == (before + data[..done]) + data[done..done + n];
        done := done + n;
      }
    }

    method PutRun(chunk: seq<Byte>)
      requires Valid() && 0 < |chunk| <= WriteRun(tx_buf.Length, tx_in, tx_out)
      modifies `tx_in, tx_buf
      ensures Valid() && Buffered(TxRing()) == old(Buffered(TxRing())) + chunk
    {
      ghost var r := TxRing();
      CopyInto(tx_buf, tx_in, chunk);
      RunIsFree(r, tx_buf[..], chunk);
      tx_in := (tx_in + |chunk|) % tx_buf.Length;
    }

    /** The inner loop of altera_avalon_jtag_uart_read, appending to the caller's buffer. */
    method Drain(space: nat) returns (got: seq<Byte>)
      requires Valid()
      modifies `rx_out
      ensures Valid()
      ensures got + Buffered(RxRing()) == old(Buffered(RxRing()))
      ensures |got| == Min(space, |old(Buffered(RxRing()))|)
    {
      got := [];
      ghost var before := Buffered(RxRing());
      while |got| < space
        invariant Valid() && |got| <= space && got + Buffered(RxRing()) == before
        decreases space - |got|
      {
        var n := ReadRun(rx_buf.Length, rx_in, rx_out);
        if n == 0 { break; }
        var chunk := TakeRun(Min(n, space - |got|));
        Regroup(got, chunk, Buffered(RxRing()));
        got := got + chunk;
      }
    }

    method TakeRun(n: nat) returns (chunk: seq<Byte>)
      requires Valid() && 0 < n <= ReadRun(rx_buf.Length, rx_in, rx_out)
      modifies `rx_out
      ensures Valid() && |chunk| == n && chunk + Buffered(RxRing()) == old(Buffered(RxRing()))
    {
      chunk := rx_buf[rx_out..rx_out + n];
      RunIsFirst(RxRing(), n);
      rx_out := Advance(rx_buf.Length, rx_out, n);
    }
  }

  /** A run of bytes from the first buffered one on. */
  lemma RunIsFirst(r: Ring, n: nat)
    requires IsRing(r) && 0 < n <= ReadRun(|r.buf|, r.inn, r.out)
    ensures IsRing(Drop(r, n)) && r.buf[r.out..r.out + n] + Buffered(Drop(r, n)) == Buffered(r)
  {
    DropRemoves(r, n);
    assert r.buf[r.out..r.out + n] == Buffered(r)[..n];
  }

  /** A run of bytes behind the buffered ones. */
  lemma RunIsFree(r: Ring, buf': seq<Byte>, chunk: seq<Byte>)
    requires IsRing(r) && 0 < |chunk| <= WriteRun(|r.buf|, r.inn, r.out)
    requires buf' == r.buf[..r.inn] + chunk + r.buf[r.inn + |chunk|..]
    ensures var r' := Ring(buf', Advance(|r.buf|, r.inn, |chunk|), r.out);
            IsRing(r') && Buffered(r') == Buffered(r) + chunk
  {
    var mid := r.(buf := buf');
    assert Buffered(mid) == Buffered(r);
    forall k | 0 <= k < |chunk| ensures buf'[At(|buf'|, r.inn, k)] == chunk[k] { }
    Appended(mid, |chunk|, chunk);
  }
}
