/** The packet loop of IOM_IOBdUpdate as it stands (sdk/src/IOManager.c:464-534), run against a bus on which
    the parser thread, the board and losses may act between any two of its statements. Its history is
    a run of FirmwareProtocol, so what is proved of all runs holds of it: its bounds against any environment,
    the rest against one that keeps to the assumptions made there. */
module FirmwareDownload {
  import opened Basics
  import opened FirmwareImage
  import opened FirmwareProtocol

  class Bus {
    const trusted: bool // whether board, bus and parser keep to the assumptions
    var mailbox: byte // u32MultiPacketSeq
    var fwd: seq<Frame>
    var rev: seq<Frame>
    var log: seq<Frame> // what the board received
    ghost var source: int
    ghost var early: bool
    ghost var run: seq<Sys> // history

    constructor (trusted: bool, mailbox: byte)
      ensures this.trusted == trusted && this.mailbox == mailbox && Quiet()
    {
      this.trusted, this.mailbox, fwd, rev, log := trusted, mailbox, [], [], [];
      source, early, run := -1, false, [];
    }

    /** Nothing under way and nothing received yet; the mailbox keeps what an earlier download left in it. */
    ghost predicate Quiet()
      reads this
    {
      fwd == [] && rev == [] && log == []
    }

    ghost function With(u: Sender): Sys
      reads this
    {
      Sys(u, mailbox, source, early, fwd, rev, log)
    }

    /** The history is a run that has arrived at the present state, with sender variables `u`. */
    ghost predicate At(packets: seq<CanFrame>, m0: byte, u: Sender)
      reads this
    {
      run != [] && AnyRun(packets, run) && run[|run| - 1] == With(u) && (trusted ==> Run(packets, m0, run))
    }

    /** One event. */
    method Happen(e: Event, ghost u: Sender)
      requires Enabled(fwd, rev, e)
      modifies `mailbox, `source, `early, `fwd, `rev, `log
      ensures With(u) == EnvNext(old(With(u)), e)
    {
      match e {
        case LoseFrame(i) => fwd := fwd[..i] + fwd[i + 1..];
        case LoseEcho(i) => rev := rev[..i] + rev[i + 1..];
        case Receive => log, rev, fwd := log + [fwd[0]], rev + [fwd[0]], fwd[1..];
        case Parse => source, mailbox, rev := rev[0].index, rev[0].can.data[0], rev[1..];
        case Result => mailbox, early := 0, early || source < 0;
      }
    }

    /** Other threads, the board and the bus do whatever they like for a while: anything at all, or any of the events of
        the protocol if they are to be trusted. */
    method Elapse(ghost packets: seq<CanFrame>, ghost m0: byte, ghost u: Sender)
      requires At(packets, m0, u)
      modifies this
      ensures At(packets, m0, u)
    {
      hide Run, AnyRun;
      var n: nat := *;
      while n > 0
        invariant At(packets, m0, u)
      {
        var e: Event := *;
        if !trusted {
          mailbox, fwd, rev, log := *, *, *, *;
          AnyRunSnoc(packets, run, With(u));
          run := run + [With(u)];
        } else if Enabled(fwd, rev, e) {
          ghost var s := With(u);
          Happen(e, u);
          EventSteps(packets, s, e);
          RunSnoc(packets, m0, run, With(u));
          AnyRunSnoc(packets, run, With(u));
          run := run + [With(u)];
        }
        n := n - 1;
      }
    }
  }

  /** The loop. `data` is the buffer the file was loaded into, long enough for the copies of seven bytes.
      `done` is false when it was left by the `break` after ten fruitless transmissions of a packet. */
  method SendPackets(bus: Bus, size: nat, data: array<byte>, ghost file: seq<byte>)
      returns (done: bool, sent: nat, ghost u: Sender)
    requires |file| == size && Padded(file, data[..])
    requires bus.trusted ==> bus.Quiet()
    modifies bus
    ensures bus.At(Packets(size, data[..]), old(bus.mailbox), u)
    ensures u.phase == if done then Finished else Aborted
    ensures sent == u.sent <= 10 * PacketCount(size)
    ensures !done ==> u.tries == 10 && u.errs == 109
    ensures bus.trusted ==> |bus.fwd| + |bus.log| <= sent
    ensures bus.trusted && done && old(bus.mailbox) != 0 && !bus.early ==> (BoardImage(bus.log) == file <==> size != 7)
    ensures bus.trusted ==>
      forall n :: 0 <= n < u.k ==> Received(bus.log, n) || (n == 0 && (old(bus.mailbox) == 0 || bus.early))
    ensures data[..] == old(data[..])
  {
    hide Run, AnyRun, Received, BoardImage;
    done, sent, u := PacketLoop(bus, size, data);
    ghost var packets, last := Packets(size, data[..]), |bus.run| - 1;
    RetryBounds(packets, bus.run, last);
    if bus.trusted {
      FramesCounted(packets, old(bus.mailbox), bus.run, last);
      Conclusions(file, data[..], old(bus.mailbox), bus.run, last);
    }
  }

  /** Command and size as the loop sets them give the packet of the image. */
  lemma PacketBuilt(size: nat, source: seq<byte>, k: nat, cmd: nat, dataSize: nat)
    requires |source| == 7 * PacketCount(size) && k < PacketCount(size)
    requires cmd == if k + 1 == PacketCount(size) then CMD_WRITE_UPGRADE_DOWN_FINISH else CMD_WRITE_UPGRADE_DOWN_START
    requires dataSize == if k + 1 == PacketCount(size) && size % 7 != 0 then size % 7 + 1 else size
    ensures 7 * k + 7 <= |source|
    ensures Packet(size, source, k)
         == CanFrame(BroadcastId(cmd), ([SeqOf(k)] + source[7 * k..7 * k + 7])[..Dlc(dataSize)])
  {
  }

  lemma FirstSeq()
    ensures SeqOf(0) == 0
  {
  }

  /** Lines 464-534 themselves. */
  method PacketLoop(bus: Bus, size: nat, data: array<byte>) returns (done: bool, sent: nat, ghost u: Sender)
    requires data.Length == 7 * PacketCount(size) && (bus.trusted ==> bus.Quiet())
    modifies bus
    ensures bus.At(Packets(size, data[..]), old(bus.mailbox), u)
    ensures u.phase == if done then Finished else Aborted
    ensures sent == u.sent && data[..] == old(data[..])
  {
    hide Run, AnyRun, Packet, Dlc, RequestedSize, SeqOf;
    ghost var source := data[..];
    ghost var packets, m0 := Packets(size, source), bus.mailbox;
    var total := PacketCount(size);
    var k, seqNo: byte := 0, 0;
    var dataSize, offset, cmd := size, 0, CMD_WRITE_UPGRADE_DOWN_START;
    var txBuf := new byte[8](_ => 0);
    done, sent := true, 0;
    bus.source, bus.early := -1, false;
    u := Start(packets, m0).sender;
    bus.run := [bus.With(u)];
    AnyBeginning(packets, bus.With(u));
    Beginning(packets, m0);
    FirstSeq();

    while k < total && done
      invariant k <= total && offset == 7 * k && data[..] == source
      invariant done ==> u == Sender(k, seqNo, 0, 0, if k < total then Transmit else Finished, 0, sent)
      invariant done ==> seqNo == SeqOf(k)
      invariant k < total ==> cmd == CMD_WRITE_UPGRADE_DOWN_START && dataSize == size
      invariant !done ==> u.phase == Aborted && sent == u.sent
      invariant bus.At(packets, m0, u)
      decreases total - k, done
    {
      txBuf[0] := seqNo;
      forall i | 0 <= i < 7 { txBuf[i + 1] := data[offset + i]; }
      offset := offset + CAN_DATA_PACKET_SIZE;
      if k == total - 1 {
        cmd := CMD_WRITE_UPGRADE_DOWN_FINISH;
        if size % CAN_DATA_PACKET_SIZE != 0 {
          dataSize := size % CAN_DATA_PACKET_SIZE + 1;
        }
      }
      assert txBuf[..] == [SeqOf(k)] + source[7 * k..7 * k + 7];
      PacketBuilt(size, source, k, cmd, dataSize);
      done, sent, u := SendOne(bus, k, BroadcastId(cmd), txBuf, dataSize, seqNo, sent, packets, m0);
      seqNo := NextSeq(seqNo);
      SeqOfStep(k);
      k := k + 1;
    }
  }

  /** The sender's variables when it has moved past packet `k`. */
  ghost function Past(packets: seq<CanFrame>, k: nat, seqNo: byte, sent: nat): Sender {
    Sender(k + 1, NextSeq(seqNo), 0, 0, if k + 1 < |packets| then Transmit else Finished, 0, sent)
  }

  /** The history takes the step the sender has just made. */
  ghost method Record(bus: Bus, packets: seq<CanFrame>, m0: byte, s: Sys) returns (u: Sender)
    requires AnyRun(packets, bus.run) && bus.run[|bus.run| - 1] == s && (bus.trusted ==> Run(packets, m0, bus.run))
    requires Active(s.sender) && s.sender.k < |packets|
    requires SenderNext(packets, s) == bus.With(SenderNext(packets, s).sender)
    modifies bus`run
    ensures u == SenderNext(packets, s).sender && bus.At(packets, m0, u)
  {
    u := SenderNext(packets, s).sender;
    assert SenderStep(packets, s, bus.With(u));
    AnyRunSnoc(packets, bus.run, bus.With(u));
    if bus.trusted {
      RunSnoc(packets, m0, bus.run, bus.With(u));
    }
    bus.run := bus.run + [bus.With(u)];
  }

  /** RETRY_TX and WAIT_DIOUPDAT_SEQ for packet `k`: transmit, compare up to a hundred times, transmit again. */
  method SendOne(bus: Bus, k: nat, id: nat, txBuf: array<byte>, dataSize: nat, seqNo: byte, sentBefore: nat,
                 ghost packets: seq<CanFrame>, ghost m0: byte)
      returns (acked: bool, sent: nat, ghost u: Sender)
    requires k < |packets| && txBuf.Length == 8
    requires packets[k] == CanFrame(id, txBuf[..Dlc(dataSize)])
    requires bus.At(packets, m0, Sender(k, seqNo, 0, 0, Transmit, 0, sentBefore))
    modifies bus
    ensures bus.At(packets, m0, u)
    ensures if acked then u == Past(packets, k, seqNo, sent) else u.phase == Aborted && u.sent == sent
    ensures !acked ==> u.k == k && u.tries == 10 && u.errs == 109
  {
    hide Run, AnyRun;
    var errs, retries := 0, 0;
    acked, sent, u := false, sentBefore, Sender(k, seqNo, 0, 0, Transmit, 0, sentBefore);
    while !acked && retries < MAX_RETRIES
      invariant bus.At(packets, m0, u)
      invariant if acked then u == Past(packets, k, seqNo, sent)
                else u == Sender(k, seqNo, errs, retries, if retries < MAX_RETRIES then Transmit else Aborted,
                                 u.tries, sent)
      decreases !acked, MAX_RETRIES - retries
    {
      var frame := IoCanTx(id, txBuf, dataSize);
      ghost var s := bus.With(u);
      bus.fwd := bus.fwd + [Frame(k, frame)];
      sent := sent + 1;
      u := Record(bus, packets, m0, s);
      bus.Elapse(packets, m0, u);

      var checking := true;
      ghost var before := retries;
      while checking
        invariant bus.At(packets, m0, u)
        invariant checking ==>
          !acked && retries < MAX_RETRIES && u == Sender(k, seqNo, errs, retries, Check, u.tries, sent)
        invariant !checking ==>
          if acked then u == Past(packets, k, seqNo, sent)
          else u == Sender(k, seqNo, errs, retries, if retries < MAX_RETRIES then Transmit else Aborted, u.tries, sent)
        invariant !checking && !acked ==> retries == before + 1
        invariant checking ==> retries == before
        decreases checking, MAX_CHECKS - errs
      {
        s := bus.With(u);
        if bus.mailbox != seqNo {
          errs := errs + 1;
          if errs >= MAX_CHECKS {
            retries := retries + 1;
            checking := false;
          }
        } else {
          errs, retries, acked, checking := 0, 0, true, false;
        }
        u := Record(bus, packets, m0, s);
        bus.Elapse(packets, m0, u);
      }
    }
    RetryBounds(packets, bus.run, |bus.run| - 1);
  }
}
