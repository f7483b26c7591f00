/** The stop-and-wait download of IOM_IOBdUpdate against the parser thread, the board and the bus
    (sdk/src/IOManager.c): a step system whose runs interleave the sending thread with losses in both
    directions, receptions by the board, acknowledgements written to `u32MultiPacketSeq`, and RESULT replies,
    which clear it at any time.

    Assumed of the environment: the board answers each data frame by echoing its first byte, and each
    direction of the bus may lose frames but neither reorders nor duplicates them. The bounds on retries at
    the end need none of this. */
module FirmwareProtocol {
  import opened Basics
  import opened FirmwareImage

  /** A data frame or its echo under way. `index` is history: which packet it is. No step looks at it. */
  datatype Frame = Frame(index: nat, can: CanFrame)

  /** Where the sending thread is: about to send (RETRY_TX), to compare (WAIT_DIOUPDAT_SEQ), or out of the loop. */
  datatype Phase = Transmit | Check | Finished | Aborted

  /** The sender's variables: `k` is u32TxSeq_Cnt, `errs` SeqErrCnt, `retries` RetryTxCnt.
      History: `tries` counts the transmissions of packet `k`, `sent` all transmissions. */
  datatype Sender = Sender(k: nat, seqNo: byte, errs: nat, retries: nat, phase: Phase, tries: nat, sent: nat)

  /** `mailbox` is u32MultiPacketSeq and `log` what the board has received. History: `source` is the packet whose
      echo was handled last, -1 before the first; `early` says that a RESULT reply was handled before that. */
  datatype Sys = Sys(sender: Sender, mailbox: byte, source: int, early: bool,
                     fwd: seq<Frame>, rev: seq<Frame>, log: seq<Frame>)

  const MAX_CHECKS := 100
  const MAX_RETRIES := 10

  /** Packets carry their running sequence number in the first byte. */
  ghost predicate Numbered(packets: seq<CanFrame>) {
    forall i {:trigger packets[i]} :: 0 <= i < |packets| ==> packets[i].data != [] && packets[i].data[0] == SeqOf(i)
  }

  function Start(packets: seq<CanFrame>, mailbox: byte): Sys {
    var phase := if |packets| == 0 then Finished else Transmit;
    Sys(Sender(0, 0, 0, 0, phase, 0, 0), mailbox, -1, false, [], [], [])
  }

  // ----- steps

  predicate Active(s: Sender) {
    s.phase == Transmit || s.phase == Check
  }

  /** One step of the sending thread; it is deterministic. */
  function SenderNext(packets: seq<CanFrame>, s: Sys): Sys
    requires Active(s.sender) && s.sender.k < |packets|
  {
    var u := s.sender;
    if u.phase == Transmit then
      s.(fwd := s.fwd + [Frame(u.k, packets[u.k])],
         sender := u.(phase := Check, tries := u.tries + 1, sent := u.sent + 1))
    else if s.mailbox == u.seqNo then
      s.(sender := Sender(u.k + 1, NextSeq(u.seqNo), 0, 0,
                          if u.k + 1 < |packets| then Transmit else Finished, 0, u.sent))
    else
      var errs := u.errs + 1;
      if errs < MAX_CHECKS then s.(sender := u.(errs := errs))
      else
        var retries := u.retries + 1;
        s.(sender := u.(errs := errs, retries := retries,
                        phase := if retries < MAX_RETRIES then Transmit else Aborted))
  }

  /** What else can happen: a frame or an echo at any place is lost, the board receives and echoes,
      the parser thread handles an echo or a RESULT reply. */
  datatype Event = LoseFrame(i: nat) | LoseEcho(i: nat) | Receive | Parse | Result

  predicate Enabled(fwd: seq<Frame>, rev: seq<Frame>, e: Event) {
    match e
    case LoseFrame(i) => i < |fwd|
    case LoseEcho(i) => i < |rev|
    case Receive => fwd != []
    case Parse => rev != [] && rev[0].can.data != []
    case Result => true
  }

  function EnvNext(s: Sys, e: Event): Sys
    requires Enabled(s.fwd, s.rev, e)
  {
    match e
    case LoseFrame(i) => s.(fwd := s.fwd[..i] + s.fwd[i + 1..])
    case LoseEcho(i) => s.(rev := s.rev[..i] + s.rev[i + 1..])
    case Receive => s.(fwd := s.fwd[1..], log := s.log + [s.fwd[0]], rev := s.rev + [s.fwd[0]])
    case Parse => s.(rev := s.rev[1..], mailbox := s.rev[0].can.data[0], source := s.rev[0].index)
    case Result => s.(mailbox := 0, early := s.early || s.source < 0)
  }

  ghost predicate SenderStep(packets: seq<CanFrame>, s: Sys, t: Sys) {
    Active(s.sender) && s.sender.k < |packets| && t == SenderNext(packets, s)
  }

  ghost predicate EnvStep(s: Sys, t: Sys) {
    exists e :: Enabled(s.fwd, s.rev, e) && t == EnvNext(s, e)
  }

  ghost predicate Step(packets: seq<CanFrame>, s: Sys, t: Sys) {
    SenderStep(packets, s, t) || EnvStep(s, t)
  }

  lemma EventSteps(packets: seq<CanFrame>, s: Sys, e: Event)
    requires Enabled(s.fwd, s.rev, e)
    ensures Step(packets, s, EnvNext(s, e))
  {
    assert EnvStep(s, EnvNext(s, e));
  }

  ghost predicate StepAt(packets: seq<CanFrame>, run: seq<Sys>, i: nat)
    requires i + 1 < |run|
  {
    Step(packets, run[i], run[i + 1])
  }

  /** A run from a mailbox holding `m0`. */
  ghost predicate Run(packets: seq<CanFrame>, m0: byte, run: seq<Sys>) {
    && run != [] && run[0] == Start(packets, m0)
    && forall i: nat :: i + 1 < |run| ==> StepAt(packets, run, i)
  }

  lemma RunSnoc(packets: seq<CanFrame>, m0: byte, run: seq<Sys>, t: Sys)
    requires Run(packets, m0, run) && Step(packets, run[|run| - 1], t)
    ensures Run(packets, m0, run + [t])
  {
    var r := run + [t];
    forall i: nat | i + 1 < |r| ensures StepAt(packets, r, i) {
      if i + 1 < |run| {
        assert StepAt(packets, run, i);
        assert r[i] == run[i] && r[i + 1] == run[i + 1];
      }
    }
  }

  // ----- the invariant

  /** The indices of the frames of `q` ascend and lie between `lo` and `hi`. */
  ghost predicate Ascending(q: seq<Frame>, lo: int, hi: int) {
    && (forall i {:trigger q[i]} :: 0 <= i < |q| ==> lo <= q[i].index <= hi)
    && (forall i, j {:trigger q[i], q[j]} :: 0 <= i < j < |q| ==> q[i].index <= q[j].index)
  }

  ghost predicate Genuine(packets: seq<CanFrame>, q: seq<Frame>) {
    forall i {:trigger q[i]} :: 0 <= i < |q| ==> q[i].index < |packets| && q[i].can == packets[q[i].index]
  }

  /** The mailbox held a 0 that no echo put there before the first echo was handled. */
  predicate Stale(m0: byte, s: Sys) {
    m0 == 0 || s.early
  }

  /** The packet the board received last; a stale 0 counts as packet 0. */
  function Front(m0: byte, s: Sys): int {
    if s.log != [] then s.log[|s.log| - 1].index else if Stale(m0, s) then 0 else -1
  }

  /** The packet acknowledged last, likewise. */
  function Acked(m0: byte, s: Sys): int {
    if s.source >= 0 then s.source else if Stale(m0, s) then 0 else -1
  }

  /** The board receives packet after packet; repeats are adjacent and nothing is skipped, unless it is packet 0
      after a stale 0. */
  ghost predicate Gapless(log: seq<Frame>, stale: bool) {
    && (log != [] ==> log[0].index <= if stale then 1 else 0)
    && forall i, j :: 0 <= i < j == i + 1 < |log| ==> log[i].index <= log[j].index <= log[i].index + 1
  }

  /** Everything under way, read from the last acknowledgement back to the sender, ascends and spans at most the
      current packet and the one before: acknowledged, echoes, last reception, frames, `k`. */
  ghost predicate Inv(packets: seq<CanFrame>, m0: byte, s: Sys) {
    var u, front, acked := s.sender, Front(m0, s), Acked(m0, s);
    && u.k <= |packets| && u.seqNo == SeqOf(u.k)
    && (u.phase == Finished <==> u.k == |packets|)
    && Genuine(packets, s.fwd) && Genuine(packets, s.rev) && Genuine(packets, s.log)
    && (if acked < 0 then s.mailbox == m0 else s.mailbox == SeqOf(acked) || s.mailbox == 0)
    && u.k - 1 <= acked <= front <= u.k
    && Ascending(s.rev, acked, front)
    && Ascending(s.fwd, front, u.k)
    && Gapless(s.log, Stale(m0, s))
  }

  lemma StartInv(packets: seq<CanFrame>, m0: byte)
    ensures Inv(packets, m0, Start(packets, m0))
  {
  }

  /** Losing a frame keeps a queue genuine and ascending. */
  lemma LossKeeps(packets: seq<CanFrame>, q: seq<Frame>, lo: int, hi: int, i: nat)
    requires i < |q| && Genuine(packets, q) && Ascending(q, lo, hi)
    ensures Genuine(packets, q[..i] + q[i + 1..]) && Ascending(q[..i] + q[i + 1..], lo, hi)
  {
  }

  /** Taking the head leaves a queue that starts no lower than the head. */
  lemma HeadKeeps(packets: seq<CanFrame>, q: seq<Frame>, lo: int, hi: int)
    requires q != [] && Genuine(packets, q) && Ascending(q, lo, hi)
    ensures Genuine(packets, q[1..]) && Ascending(q[1..], q[0].index, hi) && lo <= q[0].index <= hi
  {
  }

  lemma SnocKeeps(packets: seq<CanFrame>, q: seq<Frame>, lo: int, hi: int, f: Frame)
    requires Genuine(packets, q) && f.index < |packets| && f.can == packets[f.index]
    requires Ascending(q, lo, hi) && lo <= hi <= f.index
    ensures Genuine(packets, q + [f]) && Ascending(q + [f], lo, f.index)
  {
  }

  lemma SenderInv(packets: seq<CanFrame>, m0: byte, s: Sys)
    requires Inv(packets, m0, s) && Active(s.sender) && s.sender.k < |packets|
    ensures Inv(packets, m0, SenderNext(packets, s))
    ensures SenderNext(packets, s).sender.k > s.sender.k ==> Front(m0, s) == s.sender.k
  {
    hide SeqOf, NextSeq, Genuine, Ascending, Gapless;
    var k := s.sender.k;
    if s.sender.phase == Transmit {
      SnocKeeps(packets, s.fwd, Front(m0, s), k, Frame(k, packets[k]));
    } else {
      SeqOfStep(k);
      AckIsGenuine(m0, s);
      AscendingWiden(s.fwd, Front(m0, s), k);
    }
  }

  /** A mailbox that equals the awaited sequence number was written by the echo of packet `k`, or holds a stale 0. */
  lemma AckIsGenuine(m0: byte, s: Sys)
    requires var k, acked := s.sender.k, Acked(m0, s);
      && s.sender.seqNo == SeqOf(k) && k - 1 <= acked <= k
      && (if acked < 0 then s.mailbox == m0 else s.mailbox == SeqOf(acked) || s.mailbox == 0)
    ensures s.mailbox == s.sender.seqNo ==> Acked(m0, s) == s.sender.k
  {
    if s.sender.k > 0 {
      SeqOfStep(s.sender.k - 1);
    }
  }

  lemma AscendingWiden(q: seq<Frame>, lo: int, hi: int)
    requires Ascending(q, lo, hi)
    ensures Ascending(q, lo, hi + 1)
  {
  }

  lemma ReceiveInv(packets: seq<CanFrame>, m0: byte, s: Sys)
    requires Inv(packets, m0, s) && s.fwd != []
    ensures Inv(packets, m0, EnvNext(s, Receive))
  {
    var f, front := s.fwd[0], Front(m0, s);
    HeadKeeps(packets, s.fwd, front, s.sender.k);
    SnocKeeps(packets, s.rev, Acked(m0, s), front, f);
    var log := s.log + [f];
    assert Genuine(packets, log);
    assert Gapless(log, Stale(m0, s));
  }

  lemma ParseInv(packets: seq<CanFrame>, m0: byte, s: Sys)
    requires Numbered(packets) && Inv(packets, m0, s) && Enabled(s.fwd, s.rev, Parse)
    ensures Inv(packets, m0, EnvNext(s, Parse))
  {
    HeadKeeps(packets, s.rev, Acked(m0, s), Front(m0, s));
  }

  /** A RESULT reply acknowledges nothing but packet 0, and that only before the first echo. */
  lemma ResultInv(packets: seq<CanFrame>, m0: byte, s: Sys)
    requires Inv(packets, m0, s)
    ensures Inv(packets, m0, EnvNext(s, Result))
  {
    assert SeqOf(0) == 0;
  }

  lemma EnvInv(packets: seq<CanFrame>, m0: byte, s: Sys, e: Event)
    requires Numbered(packets) && Inv(packets, m0, s) && Enabled(s.fwd, s.rev, e)
    ensures Inv(packets, m0, EnvNext(s, e))
  {
    hide Genuine, Ascending, Gapless, Numbered, SeqOf;
    var front, acked := Front(m0, s), Acked(m0, s);
    match e
    case LoseFrame(i) => LossKeeps(packets, s.fwd, front, s.sender.k, i);
    case LoseEcho(i) => LossKeeps(packets, s.rev, acked, front, i);
    case Receive => ReceiveInv(packets, m0, s);
    case Parse => ParseInv(packets, m0, s);
    case Result => ResultInv(packets, m0, s);
  }

  lemma StepInv(packets: seq<CanFrame>, m0: byte, s: Sys, t: Sys)
    requires Numbered(packets) && Inv(packets, m0, s) && Step(packets, s, t)
    ensures Inv(packets, m0, t)
  {
    if SenderStep(packets, s, t) {
      SenderInv(packets, m0, s);
    } else {
      var e :| Enabled(s.fwd, s.rev, e) && t == EnvNext(s, e);
      EnvInv(packets, m0, s, e);
    }
  }

  lemma {:induction false} RunInv(packets: seq<CanFrame>, m0: byte, run: seq<Sys>, i: nat)
    requires Numbered(packets) && Run(packets, m0, run) && i < |run|
    ensures Inv(packets, m0, run[i])
  {
    if i == 0 {
      StartInv(packets, m0);
    } else {
      RunInv(packets, m0, run, i - 1);
      assert StepAt(packets, run, i - 1);
      StepInv(packets, m0, run[i - 1], run[i]);
    }
  }

  // ----- safety: what the sender may conclude

  ghost predicate Received(log: seq<Frame>, n: int) {
    exists j :: 0 <= j < |log| && log[j].index == n
  }

  lemma {:induction false} GaplessCovers(log: seq<Frame>, stale: bool, j: nat, n: int)
    requires Gapless(log, stale) && j < |log| && log[0].index <= n <= log[j].index
    ensures Received(log, n)
  {
    if log[j].index != n {
      GaplessCovers(log, stale, j - 1, n);
    }
  }

  /** In every run, whatever packet `n` the sender has moved past has been received by the board; the one
      exception is packet 0, when the mailbox was 0 before the download or was cleared before the first echo. */
  lemma MovedPastIsReceived(packets: seq<CanFrame>, m0: byte, run: seq<Sys>, i: nat, n: nat)
    requires Numbered(packets) && Run(packets, m0, run) && i < |run| && n < run[i].sender.k
    ensures Received(run[i].log, n) || (n == 0 && Stale(m0, run[i]))
  {
    RunInv(packets, m0, run, i);
    var log := run[i].log;
    if log != [] && log[0].index <= n {
      GaplessCovers(log, Stale(m0, run[i]), |log| - 1, n);
    }
  }

  predicate SameSeq(f: CanFrame, g: CanFrame) {
    f.data != [] && g.data != [] && f.data[0] == g.data[0]
  }

  /** The frames of `log` up to `n` with adjacent repeats collapsed, as a board can do it: a frame whose
      sequence byte equals the previous one's is a repeat. */
  function Collapsed(log: seq<Frame>, n: nat): seq<CanFrame>
    requires n <= |log|
  {
    if n == 0 then []
    else if n > 1 && SameSeq(log[n - 1].can, log[n - 2].can) then Collapsed(log, n - 1)
    else Collapsed(log, n - 1) + [log[n - 1].can]
  }

  lemma {:induction false} CollapsedStretch(packets: seq<CanFrame>, log: seq<Frame>, stale: bool, n: nat)
    requires Numbered(packets) && Genuine(packets, log) && Gapless(log, stale) && 0 < n <= |log|
    ensures log[0].index <= log[n - 1].index < |packets|
    ensures Collapsed(log, n) == packets[log[0].index..log[n - 1].index + 1]
  {
    hide SeqOf, NextSeq;
    var f := log[n - 1];
    assert f.can == packets[f.index];
    if n == 1 {
      assert Collapsed(log, 0) == [];
    } else {
      CollapsedStretch(packets, log, stale, n - 1);
      var g := log[n - 2];
      assert g.can == packets[g.index] && g.index <= f.index <= g.index + 1;
      SeqOfStep(g.index);
    }
  }

  /** In every run the board has received a stretch of packets in increasing order, without a gap, although the
      sequence bytes wrap; it starts at packet 0, or possibly at 1 after a stale 0. */
  lemma CollapsedInOrder(packets: seq<CanFrame>, m0: byte, run: seq<Sys>, i: nat)
    requires Numbered(packets) && Run(packets, m0, run) && i < |run| && run[i].log != []
    ensures var log := run[i].log; var first, last := log[0].index, log[|log| - 1].index;
      && first <= (if Stale(m0, run[i]) then 1 else 0) && first <= last < |packets|
      && Collapsed(log, |log|) == packets[first..last + 1]
  {
    RunInv(packets, m0, run, i);
    CollapsedStretch(packets, run[i].log, Stale(m0, run[i]), |run[i].log|);
  }

  /** The file bytes a board gets by collapsing repeats and dropping sequence bytes. */
  function BoardImage(log: seq<Frame>): seq<byte> {
    var fs := Collapsed(log, |log|);
    Payloads(fs, |fs|)
  }

  /** When the sender runs through to the end, the board has every packet once and in order, packet 0
      included unless there was a stale 0. */
  lemma FinishedHasAllPackets(packets: seq<CanFrame>, m0: byte, run: seq<Sys>, i: nat)
    requires Numbered(packets) && Run(packets, m0, run) && i < |run| && run[i].sender.phase == Finished
    ensures var got := Collapsed(run[i].log, |run[i].log|);
      got == packets || (Stale(m0, run[i]) && packets != [] && got == packets[1..])
  {
    RunInv(packets, m0, run, i);
    var s := run[i];
    if s.log != [] {
      CollapsedInOrder(packets, m0, run, i);
    }
  }

  /** End to end: a download that runs to the end leaves the board with exactly the file, over any losses,
      and any RESULT replies after the first echo, if and only if the file is not seven bytes long. */
  lemma DownloadDelivers(file: seq<byte>, source: seq<byte>, m0: byte, run: seq<Sys>, i: nat)
    requires Padded(file, source)
    requires Run(Packets(|file|, source), m0, run) && i < |run| && run[i].sender.phase == Finished
    requires !Stale(m0, run[i])
    ensures BoardImage(run[i].log) == file <==> |file| != 7
  {
    PacketsNumbered(file, source);
    FinishedHasAllPackets(Packets(|file|, source), m0, run, i);
    SegmentationRoundTrip(file, source);
  }

  /** Nothing is on the bus or received that was not transmitted and counted. */
  lemma {:induction false} FramesCounted(packets: seq<CanFrame>, m0: byte, run: seq<Sys>, i: nat)
    requires Run(packets, m0, run) && i < |run|
    ensures |run[i].fwd| + |run[i].log| <= run[i].sender.sent
  {
    if i > 0 {
      FramesCounted(packets, m0, run, i - 1);
      assert StepAt(packets, run, i - 1);
    }
  }

  /** What a run lets one conclude at its state `i`. */
  lemma Conclusions(file: seq<byte>, source: seq<byte>, m0: byte, run: seq<Sys>, i: nat)
    requires Padded(file, source) && Run(Packets(|file|, source), m0, run) && i < |run|
    ensures forall n :: 0 <= n < run[i].sender.k ==> Received(run[i].log, n) || (n == 0 && Stale(m0, run[i]))
    ensures run[i].sender.phase == Finished && !Stale(m0, run[i]) ==> (BoardImage(run[i].log) == file <==> |file| != 7)
  {
    PacketsNumbered(file, source);
    forall n | 0 <= n < run[i].sender.k ensures Received(run[i].log, n) || (n == 0 && Stale(m0, run[i])) {
      MovedPastIsReceived(Packets(|file|, source), m0, run, i, n);
    }
    if run[i].sender.phase == Finished && !Stale(m0, run[i]) {
      DownloadDelivers(file, source, m0, run, i);
    }
  }

  lemma PacketsNumbered(file: seq<byte>, source: seq<byte>)
    requires Padded(file, source)
    ensures Numbered(Packets(|file|, source))
  {
  }

  /** A run in which packet 0 is sent and lost, and the sender takes for its echo a 0 that was left over or that a
      RESULT reply put there. */
  lemma StaleRun(packets: seq<CanFrame>, m0: byte, early: bool) returns (run: seq<Sys>, t: Sys)
    requires packets != [] && (m0 == 0 || early)
    ensures Run(packets, m0, run) && run[|run| - 1] == t && t.early == early
    ensures t.fwd == [] && t.rev == [] && t.log == [] && t.sender.k == 1 && t.sender.seqNo == SeqOf(1)
    ensures t.sender.phase == if |packets| > 1 then Transmit else Finished
  {
    hide Run;
    var s0 := Start(packets, m0);
    var s1 := SenderNext(packets, s0);
    Beginning(packets, m0);
    RunSnoc(packets, m0, [s0], s1);
    var s2 := EnvNext(s1, LoseFrame(0));
    EventSteps(packets, s1, LoseFrame(0));
    RunSnoc(packets, m0, [s0] + [s1], s2);
    run, t := [s0] + [s1] + [s2], s2;
    if early {
      var s3 := EnvNext(s2, Result);
      EventSteps(packets, s2, Result);
      RunSnoc(packets, m0, run, s3);
      run, t := run + [s3], s3;
    }
    RunSnoc(packets, m0, run, SenderNext(packets, t));
    t := SenderNext(packets, t);
    run := run + [t];
  }

  lemma Beginning(packets: seq<CanFrame>, m0: byte)
    ensures Run(packets, m0, [Start(packets, m0)])
  {
  }

  /** The condition on packet 0 is exact, `early` saying whether RESULT replies may be handled before the first echo:
      the sender never moves past packet 0 without the board having it if and only if they may not and the
      mailbox does not hold 0 when the download starts. */
  lemma FirstPacketSafeIff(packets: seq<CanFrame>, m0: byte, early: bool)
    requires Numbered(packets) && packets != []
    ensures m0 != 0 && !early <==>
      forall run: seq<Sys>, i ::
        Run(packets, m0, run) && 0 <= i < |run| && (run[i].early ==> early) && run[i].sender.k > 0
        ==> Received(run[i].log, 0)
  {
    if m0 == 0 || early {
      var run, t := StaleRun(packets, m0, early);
      assert !Received(run[|run| - 1].log, 0);
    } else {
      forall run: seq<Sys>, i |
        Run(packets, m0, run) && 0 <= i < |run| && (run[i].early ==> early) && run[i].sender.k > 0
        ensures Received(run[i].log, 0)
      {
        MovedPastIsReceived(packets, m0, run, i, 0);
      }
    }
  }

  // ----- bounds: the retry loop against any board

  /** Whatever can happen to the mailbox and on the bus, only the sender changes its variables. */
  ghost predicate AnyStep(packets: seq<CanFrame>, s: Sys, t: Sys) {
    SenderStep(packets, s, t) || t.sender == s.sender
  }

  ghost predicate AnyStepAt(packets: seq<CanFrame>, run: seq<Sys>, i: nat)
    requires i + 1 < |run|
  {
    AnyStep(packets, run[i], run[i + 1])
  }

  /** A run against any board, bus and parser: between two steps of the sender everything else may become anything. */
  ghost predicate AnyRun(packets: seq<CanFrame>, run: seq<Sys>) {
    && run != [] && run[0].sender == Start(packets, 0).sender
    && forall i: nat :: i + 1 < |run| ==> AnyStepAt(packets, run, i)
  }

  lemma AnyBeginning(packets: seq<CanFrame>, s: Sys)
    requires s.sender == Start(packets, 0).sender
    ensures AnyRun(packets, [s])
  {
  }

  lemma AnyRunSnoc(packets: seq<CanFrame>, run: seq<Sys>, t: Sys)
    requires AnyRun(packets, run) && AnyStep(packets, run[|run| - 1], t)
    ensures AnyRun(packets, run + [t])
  {
    var r := run + [t];
    forall i: nat | i + 1 < |r| ensures AnyStepAt(packets, r, i) {
      if i + 1 < |run| {
        assert AnyStepAt(packets, run, i);
        assert r[i] == run[i] && r[i + 1] == run[i + 1];
      }
    }
  }

  /** The runs with an echoing board on an ordered bus are among them. */
  lemma RunIsAnyRun(packets: seq<CanFrame>, m0: byte, run: seq<Sys>)
    requires Run(packets, m0, run)
    ensures AnyRun(packets, run)
  {
    forall i: nat | i + 1 < |run| ensures AnyStepAt(packets, run, i) {
      assert StepAt(packets, run, i);
    }
  }

  /** SeqErrCnt is not reset by a retry: after the first hundred failed checks each further one retransmits. */
  ghost predicate Budget(packets: seq<CanFrame>, u: Sender) {
    && u.k <= |packets| && (u.phase == Finished <==> u.k == |packets|)
    && u.retries <= 10 && (u.phase == Aborted <==> u.retries == 10)
    && (if u.retries == 0 then u.errs < 100 else u.errs == 99 + u.retries)
    && u.tries == u.retries + (if u.phase == Check then 1 else 0)
    && u.sent <= 10 * u.k + u.tries
  }

  /** The steps the sender has left. */
  function Rank(packets: seq<CanFrame>, u: Sender): int {
    120 * (|packets| - u.k) - u.errs - u.tries
  }

  lemma SenderBudget(packets: seq<CanFrame>, s: Sys)
    requires Active(s.sender) && Budget(packets, s.sender)
    ensures s.sender.k < |packets| && Budget(packets, SenderNext(packets, s).sender)
    ensures 0 <= Rank(packets, SenderNext(packets, s).sender) < Rank(packets, s.sender)
  {
  }

  /** The number of steps in `run` up to `n` that are the sender's. */
  ghost function SenderSteps(run: seq<Sys>, n: nat): nat
    requires n < |run|
  {
    if n == 0 then 0
    else SenderSteps(run, n - 1) + if run[n].sender != run[n - 1].sender then 1 else 0
  }

  /** Against any losses and any board, whatever it answers and whoever writes the mailbox: a packet is transmitted
      at most 10 times with at most 109 failed checks, at most 10 frames per packet are sent in all, and the
      sender is out of its loop after at most 120 steps per packet. It retransmits only after the hundredth failed
      check and each further one, and gives up if and only if ten transmissions and 109 checks have failed. */
  lemma {:induction false} RetryBounds(packets: seq<CanFrame>, run: seq<Sys>, i: nat)
    requires AnyRun(packets, run) && i < |run|
    ensures var u := run[i].sender;
      && Budget(packets, u) && u.tries <= 10 && u.errs <= 109 && u.sent <= 10 * |packets|
      && (u.phase == Aborted <==> u.errs == 109) && (u.phase == Aborted ==> u.tries == 10)
      && (u.tries >= 2 ==> u.errs >= 98 + u.tries)
      && SenderSteps(run, i) + Rank(packets, u) <= 120 * |packets| && Rank(packets, u) >= 0
  {
    if i > 0 {
      RetryBounds(packets, run, i - 1);
      var s, t := run[i - 1], run[i];
      assert AnyStepAt(packets, run, i - 1);
      if SenderStep(packets, s, t) {
        SenderBudget(packets, s);
      } else {
        assert t.sender == s.sender;
      }
    }
  }
}
