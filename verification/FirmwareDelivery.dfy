/** When a firmware download (FirmwareProtocol) leaves the board with the file: exactly under which conditions
    every run that gets to its end does, and that there are such runs. */
module FirmwareDelivery {
  import opened Basics
  import opened FirmwareImage
  import opened FirmwareProtocol

  /** Between two packets: the sender is about to transmit or done, and nothing is under way. */
  ghost predicate Between(packets: seq<CanFrame>, s: Sys) {
    && s.fwd == [] && s.rev == []
    && s.sender.k <= |packets| && s.sender.seqNo == SeqOf(s.sender.k)
    && s.sender.phase == if s.sender.k < |packets| then Transmit else Finished
  }

  ghost predicate EndsIn(packets: seq<CanFrame>, m0: byte, run: seq<Sys>, s: Sys) {
    Run(packets, m0, run) && run[|run| - 1] == s
  }

  /** A packet that is sent, received, echoed and acknowledged without loss. */
  lemma Round(packets: seq<CanFrame>, m0: byte, run: seq<Sys>, s: Sys) returns (run': seq<Sys>, t: Sys)
    requires Numbered(packets) && EndsIn(packets, m0, run, s) && Between(packets, s) && s.sender.k < |packets|
    ensures EndsIn(packets, m0, run', t) && Between(packets, t) && t.mailbox == SeqOf(s.sender.k)
    ensures t.sender.k == s.sender.k + 1 && t.log == s.log + [Frame(s.sender.k, packets[s.sender.k])]
    ensures t.sender.sent == s.sender.sent + 1 && t.early == s.early && Cleared(t.sender) && run <= run'
  {
    hide Run;
    var k := s.sender.k;
    SeqOfStep(k);
    var s1 := SenderNext(packets, s);
    RunSnoc(packets, m0, run, s1);
    var s2 := EnvNext(s1, Receive);
    EventSteps(packets, s1, Receive);
    RunSnoc(packets, m0, run + [s1], s2);
    assert packets[k].data[0] == SeqOf(k);
    var s3 := EnvNext(s2, Parse);
    EventSteps(packets, s2, Parse);
    RunSnoc(packets, m0, run + [s1] + [s2], s3);
    t := SenderNext(packets, s3);
    RunSnoc(packets, m0, run + [s1] + [s2] + [s3], t);
    run' := run + [s1] + [s2] + [s3] + [t];
  }

  /** Without losses the rest of a download goes through, each packet sent once. */
  lemma {:induction false} Rest(packets: seq<CanFrame>, m0: byte, run: seq<Sys>, s: Sys)
      returns (run': seq<Sys>, t: Sys)
    requires Numbered(packets) && EndsIn(packets, m0, run, s) && Between(packets, s)
    ensures EndsIn(packets, m0, run', t) && t.sender.phase == Finished
    ensures t.sender.sent == s.sender.sent + |packets| - s.sender.k && t.early == s.early && run <= run'
    ensures |t.log| == |s.log| + |packets| - s.sender.k
    ensures forall n :: Received(t.log, n) ==> Received(s.log, n) || s.sender.k <= n
    decreases |packets| - s.sender.k
  {
    hide Run;
    if s.sender.k == |packets| {
      run', t := run, s;
    } else {
      var run1, s1 := Round(packets, m0, run, s);
      run', t := Rest(packets, m0, run1, s1);
      ReceivedSnoc(s.log, Frame(s.sender.k, packets[s.sender.k]));
    }
  }

  /** Packets are sent without loss up to packet `j`. */
  lemma {:induction false} UpTo(packets: seq<CanFrame>, m0: byte, j: nat) returns (run: seq<Sys>, t: Sys)
    requires Numbered(packets) && j <= |packets| && m0 != 0
    ensures EndsIn(packets, m0, run, t) && Between(packets, t) && t.sender.k == t.sender.sent == |t.log| == j
    ensures Cleared(t.sender) && t.mailbox != SeqOf(j)
  {
    hide Run, SeqOf;
    SeqOfIs(0, 0);
    if j == 0 {
      Beginning(packets, m0);
      run, t := [Start(packets, m0)], Start(packets, m0);
    } else {
      var run1, s := UpTo(packets, m0, j - 1);
      run, t := Round(packets, m0, run1, s);
      SeqOfStep(j - 1);
    }
  }

  predicate Cleared(u: Sender) {
    u.errs == 0 && u.retries == 0 && u.tries == 0
  }

  // ----- losses that are made good

  lemma {:induction false} FailedChecks(packets: seq<CanFrame>, m0: byte, run: seq<Sys>, s: Sys, n: nat)
      returns (run': seq<Sys>, t: Sys)
    requires EndsIn(packets, m0, run, s) && s.sender.phase == Check && s.sender.k < |packets|
    requires s.mailbox != s.sender.seqNo && s.sender.errs + n < 100
    ensures EndsIn(packets, m0, run', t) && run <= run' && t == s.(sender := s.sender.(errs := s.sender.errs + n))
  {
    hide Run;
    run', t := run, s;
    if n > 0 {
      run', t := FailedChecks(packets, m0, run, s, n - 1);
      RunSnoc(packets, m0, run', SenderNext(packets, t));
      t := SenderNext(packets, t);
      run' := run' + [t];
    }
  }

  /** What the counters are after `n` transmissions of packet `k` that were lost. */
  ghost predicate Lost(u: Sender, n: nat) {
    && u.retries == u.tries == n && u.errs == (if n == 0 then 0 else 99 + n)
    && u.phase == (if n < 10 then Transmit else Aborted)
  }

  /** One more transmission that is lost. */
  lemma LostTry(packets: seq<CanFrame>, m0: byte, run: seq<Sys>, s: Sys, n: nat) returns (run': seq<Sys>, t: Sys)
    requires EndsIn(packets, m0, run, s) && s.sender.k < |packets| && s.fwd == [] && s.rev == []
    requires s.mailbox != s.sender.seqNo && Lost(s.sender, n) && n < 10
    ensures EndsIn(packets, m0, run', t) && run <= run' && Lost(t.sender, n + 1)
    ensures t == s.(sender := t.sender)
    ensures t.sender.k == s.sender.k && t.sender.seqNo == s.sender.seqNo && t.sender.sent == s.sender.sent + 1
  {
    hide Run;
    var s1 := SenderNext(packets, s);
    RunSnoc(packets, m0, run, s1);
    var s2 := EnvNext(s1, LoseFrame(0));
    EventSteps(packets, s1, LoseFrame(0));
    RunSnoc(packets, m0, run + [s1], s2);
    assert s2 == s.(sender := s1.sender);
    var s3 := s2;
    run' := run + [s1] + [s2];
    if n == 0 {
      run', s3 := FailedChecks(packets, m0, run', s2, 99);
    }
    t := SenderNext(packets, s3);
    RunSnoc(packets, m0, run', t);
    run' := run' + [t];
  }

  lemma {:induction false} LostTries(packets: seq<CanFrame>, m0: byte, run: seq<Sys>, s: Sys, n: nat)
      returns (run': seq<Sys>, t: Sys)
    requires EndsIn(packets, m0, run, s) && s.sender.k < |packets| && s.fwd == [] && s.rev == []
    requires s.mailbox != s.sender.seqNo && Lost(s.sender, 0) && n <= 10
    ensures EndsIn(packets, m0, run', t) && run <= run' && Lost(t.sender, n)
    ensures t == s.(sender := t.sender)
    ensures t.sender.k == s.sender.k && t.sender.seqNo == s.sender.seqNo && t.sender.sent == s.sender.sent + n
  {
    hide Run;
    run', t := run, s;
    if n > 0 {
      run', t := LostTries(packets, m0, run, s, n - 1);
      run', t := LostTry(packets, m0, run', t, n - 1);
    }
  }

  /** Nine losses are made good: whatever packet `j` it is, there is a run in which the first nine transmissions of it
      are lost and which gets to the end with nine frames more than there are packets. */
  lemma NineLostRun(packets: seq<CanFrame>, m0: byte, j: nat) returns (run: seq<Sys>, t: Sys, i: nat)
    requires Numbered(packets) && j < |packets| && m0 != 0
    ensures EndsIn(packets, m0, run, t) && t.sender.phase == Finished
    ensures t.sender.sent == |packets| + 9 && |t.log| == |packets|
    ensures i < |run| && run[i].sender.k == j && run[i].sender.tries == 9 && |run[i].log| == j && run[i].fwd == []
  {
    hide Run, SeqOf;
    var run0, s0 := UpTo(packets, m0, j);
    var run1, s1 := LostTries(packets, m0, run0, s0, 9);
    i := |run1| - 1;
    var run2, s2 := Round(packets, m0, run1, s1);
    run, t := Rest(packets, m0, run2, s2);
    assert run[i] == run1[i];
  }

  /** The tenth is not: there is a run that is given up although only packet `j` was ever lost. */
  lemma TenLostRun(packets: seq<CanFrame>, m0: byte, j: nat) returns (run: seq<Sys>, t: Sys)
    requires Numbered(packets) && j < |packets| && m0 != 0
    ensures EndsIn(packets, m0, run, t) && t.sender.phase == Aborted && t.sender.k == |t.log| == j
    ensures t.sender.sent == j + 10
  {
    hide Run, SeqOf;
    var run0, s0 := UpTo(packets, m0, j);
    run, t := LostTries(packets, m0, run0, s0, 10);
  }

  lemma ReceivedSnoc(log: seq<Frame>, f: Frame)
    ensures forall n :: Received(log + [f], n) ==> Received(log, n) || n == f.index
  {
  }

  /** From any mailbox there is a run that gets to the end with as many data frames as there are packets. */
  lemma LosslessRun(packets: seq<CanFrame>, m0: byte) returns (run: seq<Sys>, t: Sys)
    requires Numbered(packets)
    ensures EndsIn(packets, m0, run, t) && t.sender.phase == Finished && t.sender.sent == |packets| == |t.log|
    ensures !t.early
  {
    run, t := Rest(packets, m0, [Start(packets, m0)], Start(packets, m0));
  }

  /** From a mailbox holding 0, or with a RESULT reply handled before the first echo, there is a run that gets to the
      end although the board never had packet 0. */
  lemma StaleFinish(packets: seq<CanFrame>, m0: byte, early: bool) returns (run: seq<Sys>, t: Sys)
    requires Numbered(packets) && packets != [] && (m0 == 0 || early)
    ensures EndsIn(packets, m0, run, t) && t.sender.phase == Finished && t.early == early && !Received(t.log, 0)
  {
    var stale, s := StaleRun(packets, m0, early);
    run, t := Rest(packets, m0, stale, s);
  }

  // ----- what the board has then

  lemma {:induction false} PayloadsTail(fs: seq<CanFrame>, n: nat)
    requires 0 < n <= |fs|
    ensures |Payloads(fs, n)| == |Payload(fs[0])| + |Payloads(fs[1..], n - 1)|
  {
    if n > 1 {
      PayloadsTail(fs, n - 1);
      assert fs[1..][n - 2] == fs[n - 1];
    } else {
      assert Payloads(fs, 0) == [];
    }
  }

  /** A board without packet 0 does not have the file. */
  lemma MissingFirst(file: seq<byte>, source: seq<byte>, m0: byte, run: seq<Sys>, i: nat)
    requires Padded(file, source) && file != []
    requires Run(Packets(|file|, source), m0, run) && i < |run| && run[i].sender.phase == Finished
    requires !Received(run[i].log, 0)
    ensures BoardImage(run[i].log) != file
  {
    hide Payloads, Payload, Packet, PacketCount, Run;
    var packets, log := Packets(|file|, source), run[i].log;
    PacketsNumbered(file, source);
    FinishedHasAllPackets(packets, m0, run, i);
    if log != [] {
      CollapsedInOrder(packets, m0, run, i);
      assert log[0].index != 0;
    }
    ShorterThanFile(file, source);
  }

  /** What all packets but the first carry is too short to be the file. */
  lemma ShorterThanFile(file: seq<byte>, source: seq<byte>)
    requires Padded(file, source) && file != []
    ensures var rest := Packets(|file|, source)[1..]; Payloads(rest, |rest|) != file
  {
    hide Payloads, Payload, Packet;
    var packets, c := Packets(|file|, source), PacketCount(|file|);
    PrefixPayloads(file, source, c);
    PacketPayload(file, source, 0);
    PayloadsTail(packets, c);
  }

  /** The sender is through at `i`, with RESULT replies before the first echo only if they are allowed. */
  ghost predicate Ends(run: seq<Sys>, i: int, early: bool) {
    0 <= i < |run| && run[i].sender.phase == Finished && (run[i].early ==> early)
  }

  /** The exact condition, `early` saying whether RESULT replies may be handled before the first echo: every run that
      gets to the end leaves the board with the file if and only if they may not, the mailbox does not hold 0
      beforehand, and the file is not seven bytes long. (An empty file needs nothing.) */
  lemma DeliveredIff(file: seq<byte>, source: seq<byte>, m0: byte, early: bool)
    requires Padded(file, source) && file != []
    ensures m0 != 0 && !early && |file| != 7 <==>
      forall run: seq<Sys>, i ::
        Run(Packets(|file|, source), m0, run) && Ends(run, i, early) ==> BoardImage(run[i].log) == file
  {
    var packets := Packets(|file|, source);
    PacketsNumbered(file, source);
    if m0 == 0 || early {
      var run, t := StaleFinish(packets, m0, early);
      assert Ends(run, |run| - 1, early);
      MissingFirst(file, source, m0, run, |run| - 1);
    } else if |file| == 7 {
      var run, t := LosslessRun(packets, m0);
      assert Ends(run, |run| - 1, early);
      DownloadDelivers(file, source, m0, run, |run| - 1);
    } else {
      forall run: seq<Sys>, i | Run(packets, m0, run) && Ends(run, i, early)
        ensures BoardImage(run[i].log) == file
      {
        DownloadDelivers(file, source, m0, run, i);
      }
    }
  }
}
