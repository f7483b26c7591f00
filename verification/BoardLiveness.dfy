/** Liveness supervision and recovery of the I/O board (sdk/src/IOManager.c: IOM_IOBdLiveCheck,
    IOM_IOBdLiveIDAdd, and the replies to it in IOM_Parser).  The class has the globals and updates them as
    the code does; what it does over whole runs is proved of the step functions on values. */
module BoardLiveness {
  import opened Basics

  const UPDAT_READY := 0
  const UPDAT_RESULT := 3

  /** Frames this module sends. */
  datatype Tx = BoardCheck | DioAssign | DioInformation

  /** g_dsIOLiveCheck and u8IOResponseErrFlag. */
  datatype Live = Live(liveId: int, initId: int, retryId: int, errId: int, errIdCnt: byte, errCnt: byte,
                       totalErr: byte, waitCnt: byte, retrying: bool, retryIdx: byte, responseErr: bool)

  /** As IOM_Init leaves it for a board with the given ID. */
  function Initial(id: int): Live {
    Live(id, id, 0, 0, 0, 0, 0, 0, false, 0, false)
  }

  function Inc(x: byte): byte {
    (x + 1) % 256
  }

  // ----- one poll

  predicate Missed(s: Live) {
    s.liveId != s.initId
  }

  /** The error latch: raised at a missed poll when three have been counted, released at a good one. */
  function Judge(s: Live): Live {
    if !Missed(s) then
      if s.totalErr == 0xFF then s.(responseErr := false, errId := 0, errCnt := 0, totalErr := 0, errIdCnt := 0) else s
    else
      var t := s.(errCnt := Inc(s.errCnt));
      if t.totalErr != 0xFF && t.errCnt >= 3 then
        t.(responseErr := true, errId := t.initId, errIdCnt := Inc(t.errIdCnt), totalErr := 0xFF)
      else t
  }

  /** The whole of an effective poll, and the frames it sends. A poll that probes returns early. */
  function Poll(s: Live): (Live, seq<Tx>) {
    var t := Judge(s);
    if !Missed(s) then (t.(liveId := 0), [DioInformation])
    else if Inc(t.waitCnt) < 5 then (t.(waitCnt := Inc(t.waitCnt), liveId := 0), [DioInformation])
    else if !t.retrying then (t.(waitCnt := 0, retryId := 0, retryIdx := 0, retrying := true), [BoardCheck])
    else (t.(waitCnt := 0, retrying := false, liveId := 0),
          (if t.retryId == t.initId then [DioAssign] else []) + [DioInformation])
  }

  /** CMD_READ_BOARD_CHECK: an answer to a probe. */
  function OnCheck(s: Live, board: int): Live {
    if s.retrying then s.(retryId := board, retryIdx := Inc(s.retryIdx)) else s
  }

  /** CMD_READ_DIO_INFORMATION: an answer to a poll. */
  function OnDio(s: Live, board: int): Live {
    s.(liveId := board)
  }

  class IoManager {
    var boards: int // g_u32TotIOBdCnt
    var timer: int // g_LiveCheckTmCnt
    var updatFlag: int // s8UpdatCheckFlag
    var liveId: int
    var initId: int
    var retryId: int
    var errId: int
    var errIdCnt: byte
    var errCnt: byte
    var totalErr: byte
    var waitCnt: byte
    var retrying: bool
    var retryIdx: byte
    var responseErr: bool
    var sent: seq<Tx>

    function State(): Live
      reads this
    {
      Live(liveId, initId, retryId, errId, errIdCnt, errCnt, totalErr, waitCnt, retrying, retryIdx, responseErr)
    }

    constructor (id: int)
      ensures State() == Initial(id) && boards == 1 && timer == 0 && updatFlag == -1 && sent == []
    {
      boards, timer, updatFlag, sent := 1, 0, -1, [];
      liveId, initId, retryId, errId := id, id, 0, 0;
      errIdCnt, errCnt, totalErr, waitCnt, retrying, retryIdx, responseErr := 0, 0, 0, 0, false, 0, false;
    }

    /** IOM_IOBdLiveCheck: an effective poll each time the timer has run, unless a download is going on. */
    method LiveCheck(interval: int, checkTm: int)
      modifies this
      ensures boards == old(boards) && updatFlag == old(updatFlag)
      ensures timer == if boards <= 0 then old(timer) else if old(timer) >= checkTm then 0 else old(timer) + interval
      ensures if boards > 0 && old(timer) >= checkTm && !(0 <= updatFlag < 3)
              then (State(), sent) == (Poll(old(State())).0, old(sent) + Poll(old(State())).1)
              else State() == old(State()) && sent == old(sent)
    {
      if boards <= 0 {
        return;
      }
      if timer >= checkTm {
        timer := 0;
        if updatFlag >= UPDAT_READY && updatFlag < UPDAT_RESULT {
          return;
        }
        PollBoard();
      } else {
        timer := timer + interval;
      }
    }

    /** Lines 269-361. */
    method PollBoard()
      modifies this
      ensures boards == old(boards) && updatFlag == old(updatFlag) && timer == old(timer)
      ensures State() == Poll(old(State())).0 && sent == old(sent) + Poll(old(State())).1
    {
      hide Judge, Inc;
      var missed := JudgeBoard();
      if missed {
        waitCnt := Inc(waitCnt);
        if waitCnt >= 5 {
          waitCnt := 0;
          if !retrying {
            sent := sent + [BoardCheck];
            retryId, retryIdx, retrying := 0, 0, true;
            return;
          } else {
            var retryCheckEnd := false;
            if retryId != initId {
              retryCheckEnd := true;
            }
            if !retryCheckEnd {
              sent := sent + [DioAssign];
            }
            retrying := false;
          }
        }
      }
      liveId := 0;
      sent := sent + [DioInformation];
    }

    /** Lines 273-309: the count of missed polls and the error latch. */
    method JudgeBoard() returns (missed: bool)
      modifies `errCnt, `responseErr, `errId, `totalErr, `errIdCnt
      ensures missed == old(Missed(State())) && State() == Judge(old(State()))
    {
      missed := false;
      if liveId != initId {
        errCnt := Inc(errCnt);
        missed := true;
      }
      if !missed {
        if totalErr == 0xFF {
          responseErr := false;
          errId, errCnt, totalErr, errIdCnt := 0, 0, 0, 0;
        }
      } else {
        if totalErr != 0xFF && errCnt >= 3 {
          responseErr := true;
          errId := initId;
          errIdCnt := Inc(errIdCnt);
          totalErr := 0xFF;
        }
      }
    }

    /** IOM_IOBdLiveIDAdd, called for each CMD_READ_DIO_INFORMATION. */
    method LiveIdAdd(board: int)
      modifies `liveId
      ensures State() == OnDio(old(State()), board) && liveId == board
    {
      if liveId == board {
        return;
      }
      liveId := board;
    }

    method BoardCheckReply(board: int)
      modifies `retryId, `retryIdx
      ensures State() == OnCheck(old(State()), board)
      ensures retryId == (if retrying then board else old(retryId))
      ensures retryIdx == (if retrying then (old(retryIdx) + 1) % 256 else old(retryIdx))
    {
      if retrying {
        retryId := board;
        retryIdx := Inc(retryIdx);
      }
    }
  }

  // ----- runs

  datatype Event = PollNow | DioReply(board: int) | CheckReply(board: int)

  /** What an observer of a run sees: for each poll whether it was missed and what was sent, and the replies. */
  datatype Obs = Polled(missed: bool, sent: seq<Tx>) | Dio(board: int) | Check(board: int)

  function Next(s: Live, e: Event): (Live, Obs) {
    match e
    case PollNow => (Poll(s).0, Polled(Missed(s), Poll(s).1))
    case DioReply(b) => (OnDio(s, b), Dio(b))
    case CheckReply(b) => (OnCheck(s, b), Check(b))
  }

  /** What the observations so far amount to. `misses` are the missed polls; `outage` those since the start or the last
      release, where a release is a good poll that ends three or more of them, and other good polls do not interrupt
      the count; `answer` is the board that answered last since the latest probe, while the answers count, and
      `answers` how many did; `heard` is the board that replied last since information was asked for, 0 for none,
      and at first the board itself. */
  datatype Past = Past(misses: nat, outage: nat, answer: int, answers: nat, heard: int)

  function After(h: Past, o: Obs): Past {
    match o
    case Polled(missed, sent) =>
      Past(if missed then h.misses + 1 else h.misses,
           if missed then h.outage + 1 else if h.outage >= 3 then 0 else h.outage,
           if BoardCheck in sent then 0 else h.answer,
           if BoardCheck in sent then 0 else h.answers,
           if DioInformation in sent then 0 else h.heard)
    case Dio(b) => h.(heard := b)
    case Check(b) => if h.misses / 5 % 2 == 1 then h.(answer := b, answers := h.answers + 1) else h
  }

  datatype Trace = Trace(state: Live, log: seq<Obs>, past: Past)

  /** The state, the observations and what they amount to after the first `n` events. */
  function Run(id: int, events: seq<Event>, n: nat): (r: Trace)
    requires n <= |events|
    ensures |r.log| == n
  {
    if n == 0 then Trace(Initial(id), [], Past(0, 0, 0, 0, id))
    else
      var r := Run(id, events, n - 1);
      var (t, o) := Next(r.state, events[n - 1]);
      Trace(t, r.log + [o], After(r.past, o))
  }

  lemma RunStart(id: int, events: seq<Event>)
    ensures Run(id, events, 0) == Trace(Initial(id), [], Past(0, 0, 0, 0, id))
  {
  }

  /** One event more. */
  lemma RunNext(id: int, events: seq<Event>, n: nat)
    requires n < |events|
    ensures var r := Run(id, events, n); var (t, o) := Next(r.state, events[n]);
      Run(id, events, n + 1) == Trace(t, r.log + [o], After(r.past, o)) && (r.log + [o])[n] == o
  {
  }

  // ----- every state agrees with its past

  ghost predicate Latched(s: Live, outage: nat) {
    && s.totalErr == (if outage >= 3 then 0xFF else 0)
    && s.responseErr == (outage >= 3)
    && s.errIdCnt == (if outage >= 3 then 1 else 0)
    && s.errId == (if outage >= 3 then s.initId else 0)
    && s.errCnt == outage % 256
  }

  ghost predicate Recovering(s: Live, misses: nat, answer: int, answers: nat) {
    && s.waitCnt == misses % 5
    && s.retrying == (misses / 5 % 2 == 1)
    && s.retryId == answer && s.retryIdx == answers % 256
  }

  /** In every reachable state the latch, the shared error flag, the error ID and its count, the eight-bit counters, the
      retry and the live ID are what the past says. */
  ghost predicate Consistent(s: Live, h: Past) {
    Latched(s, h.outage) && Recovering(s, h.misses, h.answer, h.answers) && s.liveId == h.heard
  }

  /** How the counter of five and the alternation move at a missed poll. */
  lemma Fifth(m: nat)
    ensures if m % 5 == 4 then (m + 1) % 5 == 0 && ((m + 1) / 5 % 2 == 1 <==> m / 5 % 2 == 0)
            else (m + 1) % 5 == m % 5 + 1 && (m + 1) / 5 == m / 5
  {
  }

  lemma Wraps(c: nat)
    ensures Inc(c % 256) == (c + 1) % 256
  {
  }

  lemma JudgeLatches(s: Live, outage: nat)
    requires Latched(s, outage)
    ensures Latched(Judge(s), if Missed(s) then outage + 1 else if outage >= 3 then 0 else outage)
  {
    Wraps(outage);
  }

  /** The error latch leaves the rest alone. */
  lemma JudgeKeeps(s: Live)
    ensures var t := Judge(s);
      t.liveId == s.liveId && t.initId == s.initId && t.retryId == s.retryId && t.waitCnt == s.waitCnt
      && t.retrying == s.retrying && t.retryIdx == s.retryIdx
  {
  }

  /** Polling leaves the error latch as Judge makes it. */
  lemma PollLatches(s: Live, outage: nat)
    requires Latched(Judge(s), outage)
    ensures Latched(Poll(s).0, outage) && Poll(s).0.initId == s.initId
  {
    JudgeKeeps(s);
  }

  lemma PollRecovers(s: Live, misses: nat, answer: int, answers: nat)
    requires Recovering(s, misses, answer, answers)
    ensures var (t, sent) := Poll(s);
      && Recovering(t, if Missed(s) then misses + 1 else misses,
                    if BoardCheck in sent then 0 else answer, if BoardCheck in sent then 0 else answers)
      && t.liveId == if DioInformation in sent then 0 else s.liveId
  {
    hide Judge;
    JudgeKeeps(s);
    Fifth(misses);
  }

  lemma PollConsistent(s: Live, h: Past)
    requires Consistent(s, h)
    ensures var (t, o) := Next(s, PollNow); t.initId == s.initId && Consistent(t, After(h, o))
  {
    hide Poll, Judge, Latched, Recovering;
    JudgeLatches(s, h.outage);
    PollLatches(s, After(h, Next(s, PollNow).1).outage);
    PollRecovers(s, h.misses, h.answer, h.answers);
  }

  lemma OnReply(s: Live, h: Past, e: Event)
    requires e != PollNow && Latched(s, h.outage)
    ensures var (t, o) := Next(s, e); Latched(t, After(h, o).outage)
  {
  }

  lemma StepConsistent(s: Live, h: Past, e: Event)
    requires Consistent(s, h)
    ensures var (t, o) := Next(s, e); t.initId == s.initId && Consistent(t, After(h, o))
  {
    hide Poll, Latched;
    if e == PollNow {
      PollConsistent(s, h);
    } else {
      Wraps(h.answers);
      OnReply(s, h, e);
    }
  }

  /** Every reachable state is consistent with its past. */
  lemma {:induction false} RunConsistent(id: int, events: seq<Event>, n: nat)
    requires n <= |events|
    ensures var r := Run(id, events, n); r.state.initId == id && Consistent(r.state, r.past)
  {
    hide Next, After;
    if n > 0 {
      RunConsistent(id, events, n - 1);
      var r := Run(id, events, n - 1);
      StepConsistent(r.state, r.past, events[n - 1]);
    }
  }

  // ----- the latch over runs

  /** In every run a poll is missed exactly if the board heard last is not the supervised one; the board error is raised
      exactly at the third missed poll since the start or the last release, whatever good polls lie between, and
      released exactly at the first good poll after that. */
  lemma LatchOverRuns(id: int, events: seq<Event>, n: nat)
    requires n < |events|
    ensures var r, r' := Run(id, events, n), Run(id, events, n + 1); var o := r'.log[n];
      && (o.Polled? ==> (o.missed <==> r.past.heard != id))
      && (!r.state.responseErr && r'.state.responseErr <==> o.Polled? && o.missed && r.past.outage == 2)
      && (r.state.responseErr && !r'.state.responseErr <==> o.Polled? && !o.missed && r.past.outage >= 3)
  {
    hide Run, Poll, Recovering;
    RunConsistent(id, events, n);
    RunConsistent(id, events, n + 1);
    RunNext(id, events, n);
  }

  // ----- counted on the observations themselves

  /** The error flag tells what the latch, the error ID and the error count are. */
  lemma ErrorShows(id: int, events: seq<Event>, n: nat)
    requires n <= |events|
    ensures var s := Run(id, events, n).state;
      if s.responseErr then s.totalErr == 0xFF && s.errId == id && s.errIdCnt == 1
      else s.totalErr == 0 && s.errId == 0 && s.errIdCnt == 0 && s.errCnt < 3
  {
    hide Run, Recovering;
    RunConsistent(id, events, n);
  }

  /** Event `i` is a poll that is missed. */
  ghost predicate MissedAt(id: int, events: seq<Event>, i: nat)
    requires i < |events|
  {
    events[i] == PollNow && Run(id, events, i + 1).log[i] == Polled(true, Run(id, events, i + 1).log[i].sent)
  }

  /** How many polls are missed from event `k` up to event `n`. */
  ghost function Count(id: int, events: seq<Event>, k: nat, n: nat): nat
    requires k <= n <= |events|
    decreases n - k
  {
    if n == k then 0 else Count(id, events, k, n - 1) + if MissedAt(id, events, n - 1) then 1 else 0
  }

  lemma CountNext(id: int, events: seq<Event>, k: nat, n: nat)
    requires k <= n < |events|
    ensures Count(id, events, k, k) == 0
    ensures Count(id, events, k, n + 1) == Count(id, events, k, n) + if MissedAt(id, events, n) then 1 else 0
  {
  }

  /** How an event moves the counts. */
  lemma PastNext(id: int, events: seq<Event>, n: nat)
    requires n < |events|
    ensures var h, h' := Run(id, events, n).past, Run(id, events, n + 1).past; var o := Run(id, events, n + 1).log[n];
      && h'.misses == h.misses + (if MissedAt(id, events, n) then 1 else 0)
      && (MissedAt(id, events, n) ==> h'.outage == h.outage + 1)
      && (!MissedAt(id, events, n) && h.outage < 3 ==> h'.outage == h.outage)
      && (MissedAt(id, events, n) <==> o.Polled? && o.missed)
  {
    hide Run, Poll;
    RunNext(id, events, n);
  }

  lemma {:induction false} MissesAreCounted(id: int, events: seq<Event>, n: nat)
    requires n <= |events|
    ensures var s, m := Run(id, events, n).state, Count(id, events, 0, n);
      Run(id, events, n).past.misses == m && s.waitCnt == m % 5 && (s.retrying <==> m / 5 % 2 == 1)
  {
    hide Run, Count, MissedAt, Latched;
    RunConsistent(id, events, n);
    RunStart(id, events);
    CountNothing(id, events, 0);
    if n > 0 {
      MissesAreCounted(id, events, n - 1);
      PastNext(id, events, n - 1);
      CountNext(id, events, 0, n - 1);
    }
  }

  lemma CountNothing(id: int, events: seq<Event>, k: nat)
    requires k <= |events|
    ensures Count(id, events, k, k) == 0
  {
  }

  /** The error has been off since `k`, the start or a release. */
  ghost predicate OffSince(id: int, events: seq<Event>, k: nat, n: nat)
    requires k <= n <= |events|
  {
    && (k == 0 || Run(id, events, k - 1).state.responseErr)
    && forall i {:trigger Run(id, events, i)} :: k <= i <= n ==> !Run(id, events, i).state.responseErr
  }

  lemma {:induction false} OutageIsCounted(id: int, events: seq<Event>, k: nat, n: nat)
    requires k <= n <= |events| && OffSince(id, events, k, n)
    ensures Run(id, events, n).past.outage == Run(id, events, n).state.errCnt == Count(id, events, k, n) < 3
    decreases n - k
  {
    hide Run, Count, MissedAt, Recovering;
    RunConsistent(id, events, n);
    CountNothing(id, events, k);
    assert !Run(id, events, n).state.responseErr;
    if n > k {
      OutageIsCounted(id, events, k, n - 1);
      PastNext(id, events, n - 1);
      CountNext(id, events, k, n - 1);
    } else if k == 0 {
      RunStart(id, events);
    } else {
      Released(id, events, k - 1);
    }
  }

  /** A release leaves no outage. */
  lemma Released(id: int, events: seq<Event>, n: nat)
    requires n < |events| && Run(id, events, n).state.responseErr && !Run(id, events, n + 1).state.responseErr
    ensures Run(id, events, n + 1).past.outage == 0
  {
    hide Run, Poll, Recovering;
    RunConsistent(id, events, n);
    RunConsistent(id, events, n + 1);
    RunNext(id, events, n);
  }

  /** The misses are cumulative: since the start or the last release, the error is raised by the third missed poll and
      by nothing else, however many good polls lie between; and once raised it is released by the first good poll. */
  lemma ThirdMissRaises(id: int, events: seq<Event>, k: nat, n: nat)
    requires k <= n < |events| && OffSince(id, events, k, n)
    ensures Run(id, events, n + 1).state.responseErr <==> Count(id, events, k, n + 1) == 3
  {
    hide Run, Count, MissedAt, Recovering;
    OutageIsCounted(id, events, k, n);
    PastNext(id, events, n);
    CountNext(id, events, k, n);
    RunConsistent(id, events, n + 1);
  }

  lemma GoodPollReleases(id: int, events: seq<Event>, n: nat)
    requires n < |events| && Run(id, events, n).state.responseErr
    ensures !Run(id, events, n + 1).state.responseErr <==> events[n] == PollNow && !MissedAt(id, events, n)
  {
    hide Run, Poll, Recovering;
    RunNext(id, events, n);
    RunConsistent(id, events, n);
    LatchOverRuns(id, events, n);
  }

  /** When the last event before a poll but answers to probes is a reply, the poll is missed exactly if the reply came
      from another board. */
  lemma {:induction false} ReplyDecides(id: int, events: seq<Event>, j: nat, n: nat, b: int)
    requires j < n < |events| && events[j] == DioReply(b) && events[n] == PollNow
    requires forall i {:trigger events[i]} :: j < i < n ==> events[i].CheckReply?
    ensures MissedAt(id, events, n) <==> b != id
  {
    hide Run, Poll;
    HeardStays(id, events, j, n, b);
    RunNext(id, events, n);
    LatchOverRuns(id, events, n);
  }

  lemma {:induction false} HeardStays(id: int, events: seq<Event>, j: nat, n: nat, b: int)
    requires j < n <= |events| && events[j] == DioReply(b)
    requires forall i {:trigger events[i]} :: j < i < n ==> events[i].CheckReply?
    ensures Run(id, events, n).past.heard == b
    decreases n
  {
    hide Run, Poll;
    RunNext(id, events, n - 1);
    if n - 1 > j {
      assert events[n - 1].CheckReply?;
      HeardStays(id, events, j, n - 1, b);
    }
  }

  // ----- a board that falls silent

  /** No reply to the requests for information among the events from `k` up to `n`. */
  ghost predicate Silent(events: seq<Event>, k: nat, n: nat)
    requires k <= n <= |events|
  {
    forall i {:trigger events[i]} :: k <= i < n ==> !events[i].DioReply?
  }

  function Polls(events: seq<Event>, k: nat, n: nat): nat
    requires k <= n <= |events|
    decreases n - k
  {
    if n == k then 0 else Polls(events, k, n - 1) + if events[n - 1] == PollNow then 1 else 0
  }

  /** Whatever came before, all polls after the first in a silence are missed, if the board's ID is not 0. */
  lemma {:induction false} SilenceCounts(id: int, events: seq<Event>, k: nat, n: nat)
    requires id != 0 && k <= n <= |events| && Silent(events, k, n)
    ensures var p, h := Polls(events, k, n), Run(id, events, n).past; p > 0 ==> h.heard != id && h.outage >= p - 1
    decreases n - k
  {
    hide Run, Poll, Consistent;
    if n > k {
      SilenceCounts(id, events, k, n - 1);
      RunNext(id, events, n - 1);
      LatchOverRuns(id, events, n - 1);
      RunConsistent(id, events, n - 1);
      PollAsks(Run(id, events, n - 1).state);
    }
  }

  /** A poll that is not missed asks for information again. */
  lemma PollAsks(s: Live)
    ensures !Missed(s) ==> DioInformation in Poll(s).1
  {
    hide Judge;
  }

  /** Board 0 that is silent from the start is never missed: the cleared live ID equals its own. */
  lemma {:induction false} SilenceUnnoticed(events: seq<Event>, n: nat)
    requires n <= |events| && Silent(events, 0, n)
    ensures var h := Run(0, events, n).past; h.misses == 0 && h.outage == 0 && h.heard == 0
  {
    hide Run, Poll, Consistent;
    RunStart(0, events);
    if n > 0 {
      SilenceUnnoticed(events, n - 1);
      RunNext(0, events, n - 1);
      LatchOverRuns(0, events, n - 1);
    }
  }

  /** A board that falls silent at any time is reported by the fourth poll at the latest, if and only if its ID
      is not 0. */
  lemma SilenceReportedIff(id: int)
    ensures id != 0 <==> forall events: seq<Event>, k: nat, n: nat ::
      k <= n <= |events| && Silent(events, k, n) && Polls(events, k, n) >= 4 ==> Run(id, events, n).state.responseErr
  {
    hide Run, Recovering;
    if id != 0 {
      forall events: seq<Event>, k: nat, n: nat |
        k <= n <= |events| && Silent(events, k, n) && Polls(events, k, n) >= 4
        ensures Run(id, events, n).state.responseErr
      {
        SilenceCounts(id, events, k, n);
        RunConsistent(id, events, n);
      }
    } else {
      var events := [PollNow, PollNow, PollNow, PollNow];
      assert Silent(events, 0, 4);
      assert Polls(events, 0, 4) == 1 + Polls(events, 0, 3) == 2 + Polls(events, 0, 2) == 4;
      SilenceUnnoticed(events, 4);
      RunConsistent(0, events, 4);
      assert !Run(0, events, 4).state.responseErr;
    }
  }

  // ----- the recovery handshake over runs

  /** The counter of five and the alternation, read off the number of missed polls so far. */
  lemma Tenth(m: nat)
    ensures (m + 1) % 10 == 5 <==> m % 5 == 4 && m / 5 % 2 == 0
    ensures (m + 1) % 10 == 0 <==> m % 5 == 4 && m / 5 % 2 == 1
  {
  }

  predicate Probes(o: Obs) {
    o.Polled? && BoardCheck in o.sent
  }

  /** Which frames a poll sends. */
  lemma PollSends(s: Live)
    ensures var (t, sent) := Poll(s); var fifth := Missed(s) && Inc(s.waitCnt) >= 5;
      && sent == (if fifth && !s.retrying then [BoardCheck]
                  else if fifth && s.retryId == s.initId then [DioAssign, DioInformation] else [DioInformation])
      && (s.retrying && !t.retrying <==> fifth && s.retrying)
  {
    hide Judge;
    JudgeKeeps(s);
  }

  /** Counted in missed polls, every fifth one alternately sends a probe or closes the retry, and a closing poll
      re-assigns the board exactly if the answer that counts is the board's. Every poll but the probing ones asks
      for the board's information. */
  lemma RecoveryOverRuns(id: int, events: seq<Event>, n: nat)
    requires n < |events| && events[n] == PollNow
    ensures var r, r' := Run(id, events, n), Run(id, events, n + 1); var o, tenth := r'.log[n], r'.past.misses % 10;
      && o.Polled?
      && (Probes(o) <==> o.missed && tenth == 5)
      && (r.state.retrying && !r'.state.retrying <==> o.missed && tenth == 0)
      && (DioAssign in o.sent <==> o.missed && tenth == 0 && r.past.answer == id)
      && o.sent == (if Probes(o) then [BoardCheck]
                    else if DioAssign in o.sent then [DioAssign, DioInformation] else [DioInformation])
  {
    hide Run, Poll, Latched;
    RunConsistent(id, events, n);
    RunNext(id, events, n);
    PollSends(Run(id, events, n).state);
    Tenth(Run(id, events, n).past.misses);
  }

  /** The board answered after the latest probe, and there has been one. */
  ghost predicate AnsweredProbe(log: seq<Obs>, board: int) {
    exists p, j :: 0 <= p < j < |log| && Probes(log[p]) && log[j] == Check(board)
                   && forall k :: p < k < |log| ==> !Probes(log[k])
  }

  /** The latest probe, when there has been one. */
  ghost predicate ProbedAt(log: seq<Obs>, p: nat) {
    p < |log| && Probes(log[p]) && forall k :: p < k < |log| ==> !Probes(log[k])
  }

  ghost predicate Probed(log: seq<Obs>) {
    exists p: nat :: ProbedAt(log, p)
  }

  /** A probe stays the latest one, and an answer stays an answer to it, over an observation that is no probe. */
  lemma StaysProbed(log: seq<Obs>, o: Obs, board: int)
    requires !Probes(o)
    ensures Probed(log) ==> Probed(log + [o])
    ensures AnsweredProbe(log, board) ==> AnsweredProbe(log + [o], board)
    ensures Probed(log) && o == Check(board) ==> AnsweredProbe(log + [o], board)
  {
    hide Probes;
    var log', n := log + [o], |log|;
    assert log'[n] == o && forall k :: 0 <= k < n ==> log'[k] == log[k];
    if Probed(log) {
      var p: nat :| ProbedAt(log, p);
      assert ProbedAt(log', p);
      assert o == Check(board) ==> Probes(log'[p]) && log'[n] == Check(board);
    }
    if AnsweredProbe(log, board) {
      var p, j :| 0 <= p < j < n && Probes(log[p]) && log[j] == Check(board)
                  && forall k :: p < k < n ==> !Probes(log[k]);
      assert Probes(log'[p]) && log'[j] == Check(board);
    }
  }

  lemma JustProbed(log: seq<Obs>, o: Obs)
    requires Probes(o)
    ensures Probed(log + [o])
  {
    assert ProbedAt(log + [o], |log|);
  }

  /** Which answer counts after one more observation. */
  lemma AnswerStep(h: Past, o: Obs)
    ensures var a := After(h, o).answer;
      if Probes(o) then a == 0 else a == h.answer || (o == Check(a) && h.misses >= 5)
    ensures h.misses <= After(h, o).misses <= h.misses + 1
    ensures !o.Polled? ==> After(h, o).misses == h.misses
  {
  }

  /** After five missed polls there has been a probe; if an answer counts, it came after the latest one. */
  lemma {:induction false} AnswerFollowsProbe(id: int, events: seq<Event>, n: nat)
    requires n <= |events|
    ensures var r := Run(id, events, n);
      && (r.past.misses >= 5 ==> Probed(r.log))
      && (r.past.answer != 0 ==> AnsweredProbe(r.log, r.past.answer))
  {
    hide Next, Probed, AnsweredProbe, Run, After, Probes;
    RunStart(id, events);
    if n > 0 {
      AnswerFollowsProbe(id, events, n - 1);
      RunNext(id, events, n - 1);
      var r, r' := Run(id, events, n - 1), Run(id, events, n);
      var o := r'.log[n - 1];
      AnswerStep(r.past, o);
      FifthMissProbes(id, events, n - 1);
      if Probes(o) {
        JustProbed(r.log, o);
      } else {
        StaysProbed(r.log, o, r'.past.answer);
      }
    }
  }

  /** The poll that brings the misses to five is a probe. */
  lemma FifthMissProbes(id: int, events: seq<Event>, n: nat)
    requires n < |events|
    ensures var r, r' := Run(id, events, n), Run(id, events, n + 1);
      r.past.misses < 5 <= r'.past.misses ==> Probes(r'.log[n])
  {
    hide Run, Poll, Probes;
    RunNext(id, events, n);
    if events[n] == PollNow {
      RecoveryOverRuns(id, events, n);
    }
  }

  /** Event `i` is a poll that sends a probe. */
  ghost predicate ProbesAt(id: int, events: seq<Event>, i: nat)
    requires i < |events|
  {
    Probes(Run(id, events, i + 1).log[i])
  }

  /** No answer and no probe between the two events. */
  ghost predicate NoneBetween(id: int, events: seq<Event>, j: nat, n: nat)
    requires n <= |events|
  {
    forall i {:trigger events[i]} :: j < i < n ==> !events[i].CheckReply? && !ProbesAt(id, events, i)
  }

  lemma NoneBetweenLess(id: int, events: seq<Event>, j: nat, n: nat)
    requires j + 1 < n <= |events| && NoneBetween(id, events, j, n)
    ensures NoneBetween(id, events, j, n - 1) && !events[n - 1].CheckReply? && !ProbesAt(id, events, n - 1)
  {
    forall i {:trigger events[i]} | j < i < n ensures !events[i].CheckReply? && !ProbesAt(id, events, i) {
    }
    assert !events[n - 1].CheckReply?;
  }

  /** The last answer while a retry is open decides: with no other answer and no probe after it, a poll re-assigns the
      board exactly if it is the closing one and the answer was the board's. */
  lemma AnswerDecides(id: int, events: seq<Event>, j: nat, n: nat, b: int)
    requires j < n < |events| && events[j] == CheckReply(b) && Run(id, events, j).state.retrying && events[n] == PollNow
    requires NoneBetween(id, events, j, n)
    ensures DioAssign in Run(id, events, n + 1).log[n].sent
       <==> MissedAt(id, events, n) && Count(id, events, 0, n + 1) % 10 == 0 && b == id
  {
    hide Run, Poll, Count, Consistent, After, Next, NoneBetween;
    AnswerStays(id, events, j, n, b);
    RecoveryOverRuns(id, events, n);
    MissesAreCounted(id, events, n + 1);
    PastNext(id, events, n);
  }

  lemma {:induction false} AnswerStays(id: int, events: seq<Event>, j: nat, n: nat, b: int)
    requires j < n <= |events| && events[j] == CheckReply(b) && Run(id, events, j).state.retrying
    requires NoneBetween(id, events, j, n)
    ensures Run(id, events, n).past.answer == b
    decreases n
  {
    hide Run, Poll, Latched, NoneBetween;
    RunNext(id, events, n - 1);
    if n - 1 > j {
      NoneBetweenLess(id, events, j, n);
      AnswerStays(id, events, j, n - 1, b);
    } else {
      RunConsistent(id, events, j);
    }
  }

  /** Polls that are missed because another board, `b`, keeps answering in the place of board 0. */
  ghost predicate Impostor(events: seq<Event>, b: int) {
    && b != 0
    && forall i {:trigger events[i]} :: 0 <= i < |events| ==> events[i] == if i % 2 == 0 then DioReply(b) else PollNow
  }

  /** One round: the impostor answers, the poll is missed. */
  lemma ImpostorRound(events: seq<Event>, b: int, n: nat)
    requires Impostor(events, b) && n % 2 == 0 && n + 2 <= |events|
    ensures var r, r' := Run(0, events, n), Run(0, events, n + 2);
      && |r'.log| == n + 2 && r'.log[n + 1].Polled? && r'.log[n + 1].missed
      && r'.log == r.log + [Dio(b)] + [r'.log[n + 1]]
      && r'.past.misses == r.past.misses + 1 && Run(0, events, n + 1).log == r.log + [Dio(b)]
  {
    hide Run, Poll;
    assert events[n] == DioReply(b) && events[n + 1] == PollNow;
    RunNext(0, events, n);
    RunNext(0, events, n + 1);
    LatchOverRuns(0, events, n + 1);
  }

  ghost predicate NoChecks(log: seq<Obs>) {
    forall k :: 0 <= k < |log| ==> !log[k].Check?
  }

  lemma NoChecksYet()
    ensures NoChecks([])
  {
  }

  lemma NoChecksSnoc(log: seq<Obs>, o: Obs)
    requires NoChecks(log) && !o.Check?
    ensures NoChecks(log + [o])
  {
  }

  lemma {:induction false} ImpostorRun(events: seq<Event>, b: int, m: nat)
    requires Impostor(events, b) && 2 * m <= |events|
    ensures var r := Run(0, events, 2 * m); r.past.misses == m && NoChecks(r.log)
  {
    hide Run, Impostor, NoChecks;
    RunStart(0, events);
    NoChecksYet();
    if m > 0 {
      ImpostorRun(events, b, m - 1);
      ImpostorRound(events, b, 2 * m - 2);
      var r, r' := Run(0, events, 2 * m - 2), Run(0, events, 2 * m);
      NoChecksSnoc(r.log, Dio(b));
      NoChecksSnoc(r.log + [Dio(b)], r'.log[2 * m - 1]);
    }
  }

  /** Board 0 is re-assigned although nothing ever answered a probe. */
  lemma ReassignUnanswered(events: seq<Event>, b: int, m: nat)
    requires Impostor(events, b) && |events| == 2 * m && m > 0 && m % 10 == 0
    ensures ReassignsAt(0, events, 2 * m - 1) && !AnsweredProbe(Run(0, events, 2 * m - 1).log, 0)
  {
    hide Run;
    var n := 2 * m - 1;
    ImpostorRun(events, b, m - 1);
    ImpostorRound(events, b, n - 1);
    NoChecksSnoc(Run(0, events, n - 1).log, Dio(b));
    assert events[n] == PollNow;
    RecoveryOverRuns(0, events, n);
    NoAnswer(Run(0, events, n).log, 0);
    AnswerFollowsProbe(0, events, n);
    NoAnswer(Run(0, events, n).log, Run(0, events, n).past.answer);
  }

  lemma NoAnswer(log: seq<Obs>, board: int)
    requires NoChecks(log)
    ensures !AnsweredProbe(log, board)
  {
  }

  /** In every run a re-assignment is sent only if the supervised board answered after the latest probe, if and
      only if that board's ID is not 0, the value a cleared retry ID has. */
  lemma ReassignNeedsAnswerIff(id: int)
    ensures id != 0 <==>
      forall events: seq<Event>, n: nat :: ReassignsAt(id, events, n) ==> AnsweredProbe(Run(id, events, n).log, id)
  {
    hide Run, AnsweredProbe;
    if id != 0 {
      forall events: seq<Event>, n: nat | ReassignsAt(id, events, n) ensures AnsweredProbe(Run(id, events, n).log, id) {
        RecoveryOverRuns(id, events, n);
        AnswerFollowsProbe(id, events, n);
      }
    } else {
      var events := seq(20, i => if i % 2 == 0 then DioReply(0x11) else PollNow);
      ReassignUnanswered(events, 0x11, 10);
      assert ReassignsAt(id, events, 19);
    }
  }

  ghost predicate ReassignsAt(id: int, events: seq<Event>, n: nat)
    ensures ReassignsAt(id, events, n) ==> n < |events|
  {
    n < |events| && events[n] == PollNow && DioAssign in Run(id, events, n + 1).log[n].sent
  }
}
