/** The receive thread of a Modbus/TCP master on the heap (sdk/acq_modbus/Acq.c, rx_thr_master): the pending
    and the delivered queue are intrusive lists, a transaction is found from its hook, and its latch is
    cleared through a pointer.  Each method makes one step of TagQueue. */
module RxMaster {
  import opened Basics
  import opened ModbusList
  import opened MbapFraming
  import Q = TagQueue

  const REOPEN_DUE := -100
  const RTU_CHECKSUM_SIZE := 2

  /** The byte `pending_latch` points to. */
  class Latch {
    var raised: bool

    constructor ()
      ensures !raised
    {
      raised := false;
    }
  }

  /** struct modbus_trans, as far as the receive thread uses it. */
  class Trans {
    var hook: ListHead
    var txReq: seq<byte> // the embedded request buffer; its first two bytes are the tag
    var rxResp: seq<byte> // the embedded response buffer
    var rxLen: int
    var latch: Latch?

    constructor ()
      ensures fresh(hook) && hook.owner == this
      ensures |txReq| == |rxResp| == BUFFER_SIZE && latch == null && rxLen == 0
    {
      txReq, rxResp := seq(BUFFER_SIZE, _ => 0), seq(BUFFER_SIZE, _ => 0);
      rxLen, latch := 0, null;
      hook := new ListHead(null);
      new;
      hook := new ListHead(this);
    }
  }

  /** Whether a list node is the hook of a transaction, so that casting it to one is sound. */
  predicate IsHook(h: ListHead) {
    h.owner != null && h.owner is Trans
  }

  function TransOf(h: ListHead): Trans
    requires IsHook(h)
  {
    h.owner as Trans
  }

  /** The transactions of the hooks `hs` have the given requests and wait behind latches that are raised,
      each behind its own. */
  ghost predicate Waiting(hs: seq<ListHead>, rs: seq<Q.Request>, ts: set<Trans>, ls: set<Latch>)
    reads ts, ls
  {
    && |hs| == |rs|
    && (forall i {:trigger hs[i]} :: 0 <= i < |hs| ==> WaitsFor(hs[i], rs[i].tag, ts, ls))
    && (forall i, j {:trigger hs[i], hs[j]} :: 0 <= i < j < |hs| ==> TransOf(hs[i]).latch != TransOf(hs[j]).latch)
  }

  ghost predicate WaitsFor(h: ListHead, tag: u16, ts: set<Trans>, ls: set<Latch>)
    reads ts, ls
  {
    IsHook(h) && TransOf(h) in ts && var t := TransOf(h);
    && t.hook == h && |t.txReq| == |t.rxResp| == BUFFER_SIZE && Word(t.txReq[0], t.txReq[1]) == tag
    && t.latch != null && t.latch in ls && t.latch.raised
  }

  /** The transactions of the hooks `hs` hold the given responses and are waited for no longer. */
  ghost predicate Served(hs: seq<ListHead>, answers: seq<Q.Answered>, ts: set<Trans>)
    reads ts
  {
    && |hs| == |answers|
    && (forall i {:trigger hs[i]} :: 0 <= i < |hs| ==> HasGot(hs[i], answers[i].body, ts))
  }

  ghost predicate HasGot(h: ListHead, body: seq<byte>, ts: set<Trans>)
    reads ts
  {
    IsHook(h) && TransOf(h) in ts && var t := TransOf(h);
    && t.hook == h && |t.rxResp| == BUFFER_SIZE && t.latch == null
    && 0 <= t.rxLen <= MAX_RESPONSE_LENGTH && t.rxResp[..t.rxLen + 8] == body
  }

  lemma ServedSnoc(hs: seq<ListHead>, answers: seq<Q.Answered>, h: ListHead, a: Q.Answered, ts: set<Trans>)
    requires Served(hs, answers, ts) && HasGot(h, a.body, ts)
    ensures Served(hs + [h], answers + [a], ts)
  {
  }

  class Bus {
    const pendQ: ListHead
    const rxQ: ListHead
    var tcqDepth: int
    var tcqPending: int
    var seqNum: u16
    // what the lists hold, the abstract state, and the objects in use
    ghost var pend: seq<ListHead>
    ghost var done: seq<ListHead>
    ghost var st: Q.State
    ghost var transes: set<Trans>
    ghost var latches: set<Latch>

    /** The queues are circular lists of hooks without a common node. */
    ghost predicate Shape()
      reads `pend, `done, pendQ, rxQ, pend, done
    {
      && pendQ != rxQ && pendQ.owner == null && rxQ.owner == null
      && (forall i {:trigger pend[i]} :: 0 <= i < |pend| ==> IsHook(pend[i]) && pend[i] !in done)
      && (forall i {:trigger done[i]} :: 0 <= i < |done| ==> IsHook(done[i]))
      && Circular(pendQ, pend) && Circular(rxQ, done)
    }

    ghost predicate Valid()
      reads this, pendQ, rxQ, pend, done, transes, latches
    {
      && Shape()
      && Waiting(pend, st.pending, transes, latches) && Served(done, st.delivered, transes)
      && Q.Inv(st) && st.depth == tcqDepth && st.count == tcqPending
      && seqNum == TagAfter(st.base, st.sent)
    }

    constructor (depth: int)
      ensures Valid() && fresh(pendQ) && fresh(rxQ) && pend == done == [] && transes == {} && latches == {}
      ensures st == Q.Init(depth, 0)
    {
      pendQ := new ListHead(null);
      rxQ := new ListHead(null);
      tcqDepth, tcqPending, seqNum := depth, 0, 0;
      pend, done := [], [];
      st, transes, latches := Q.Init(depth, 0), {}, {};
    }

    /** Lines 221-247: the transaction a response belongs to, found by walking the list or taken as its first
        element. The cast is only ever applied to the hook of a pending transaction, never to the list head. */
    method FindTransaction(hi: byte, lo: byte) returns (trans: Trans?, ghost k: nat)
      requires Valid()
      ensures trans == null <==> Q.Pick(st, Word(hi, lo)) == None
      ensures trans != null ==> Q.Pick(st, Word(hi, lo)) == Some(k)
      ensures trans != null ==> k < |pend| && pend[k] == trans.hook && TransOf(pend[k]) == trans
    {
      trans, k := null, 0;
      if tcqDepth != 1 || tcqPending > 1 {
        var pos, n := SafeStart(pendQ, pend);
        while pos != pendQ
          invariant k <= |pend| && trans == null
          invariant pos == ElementOrHead(pendQ, pend, k) && n == pos.next
          invariant Q.FirstWith(st.pending, Word(hi, lo), k) == Q.FirstWith(st.pending, Word(hi, lo), 0)
          decreases |pend| - k
        {
          trans := pos.owner as Trans;
          if hi == trans.txReq[0] && lo == trans.txReq[1] {
            return;
          }
          trans := null;
          NextElement(pendQ, pend, k);
          NextElement(pendQ, pend, k + 1);
          pos := n;
          n := pos.next;
          k := k + 1;
        }
        HeadApart(pendQ, pend);
      } else {
        if tcqPending == 1 {
          Neighbours([pendQ] + pend, 0);
          trans := pendQ.next.owner as Trans;
        }
      }
    }

    /** Lines 210-275: a good response of `len` payload bytes lies in `response`. */
    method HandleResponse(len: int, response: array<byte>)
      requires Valid() && 0 < len <= MAX_RESPONSE_LENGTH && response.Length == BUFFER_SIZE
      modifies this, pendQ, rxQ, pend, done, latches, transes`latch, transes`rxResp, transes`rxLen
      ensures Valid() && transes == old(transes) && latches == old(latches)
      ensures st == Q.Step(old(st), Q.Reply(Word(response[0], response[1]), response[..len + 8]))
      ensures match Q.Pick(old(st), Word(response[0], response[1]))
        case None => pend == old(pend) && done == old(done) && unchanged(pendQ, rxQ, pend, done, transes, latches)
        case Some(k) =>
          && pend == Without(old(pend), k) && done == old(done) + [old(pend)[k]]
          && var l := old(TransOf(pend[k]).latch); l != null && !l.raised
    {
      var trans, k := FindTransaction(response[0], response[1]);
      if trans != null {
        Deliver(trans, len, response, k);
      }
    }

    /** Clearing the latch and storing the response touches one transaction only. */
    method Answer(trans: Trans, len: int, response: array<byte>, ghost k: nat)
      requires Shape() && Waiting(pend, st.pending, transes, latches) && Served(done, st.delivered, transes)
      requires 0 < len <= MAX_RESPONSE_LENGTH && response.Length == BUFFER_SIZE
      requires k < |pend| && pend[k] == trans.hook && TransOf(pend[k]) == trans
      modifies trans`latch, trans`rxResp, trans`rxLen, trans.latch
      ensures Waiting(Without(pend, k), Without(st.pending, k), transes, latches)
      ensures HasGot(trans.hook, response[..len + 8], transes) && old(trans.latch) != null && !old(trans.latch).raised
      ensures Served(done, st.delivered, transes)
    {
      ElementsDiffer(pendQ, pend, k);
      trans.latch.raised := false;
      trans.latch := null;
      trans.rxResp := response[..len + TCP_HEADER_SIZE + RTU_CHECKSUM_SIZE]
                      + trans.rxResp[len + TCP_HEADER_SIZE + RTU_CHECKSUM_SIZE..];
      trans.rxLen := len;
    }

    /** Out of the pending queue. */
    method Unlink(hook: ListHead, ghost k: nat)
      requires Shape() && k < |pend| && pend[k] == hook
      modifies pendQ, pend, `pend
      ensures Shape() && pend == Without(old(pend), k) && hook !in pend && hook !in done
    {
      assert forall x :: x in [rxQ] + done ==> x !in [pendQ] + pend;
      Neighbours([pendQ] + pend, k + 1);
      ElementsDiffer(pendQ, pend, k);
      ListDel(hook, pendQ, pend, k);
      ghost var rest := Without(pend, k);
      assert forall i :: 0 <= i < |rest| ==> rest[i] == pend[if i < k then i else i + 1];
      pend := rest;
    }

    /** Assumed of _q_trans: the transaction is appended. */
    method Append(hook: ListHead)
      requires Shape() && IsHook(hook) && hook !in pend && hook !in done
      modifies rxQ, done, hook, `done
      ensures Shape() && done == old(done) + [hook]
    {
      assert forall x :: x in [rxQ] + done ==> x !in [pendQ] + pend;
      Neighbours([rxQ] + done, 0);
      ListAddTail(hook, rxQ, done);
      done := done + [hook];
    }

    /** Off the pending queue, uncounted, onto the delivered queue. */
    method Requeue(hook: ListHead, ghost k: nat)
      requires Shape() && k < |pend| && pend[k] == hook
      modifies pendQ, rxQ, pend, done, `pend, `done, `tcqPending
      ensures Shape() && pend == Without(old(pend), k) && done == old(done) + [hook]
      ensures tcqPending == old(tcqPending) - 1
    {
      Unlink(hook, k);
      tcqPending := tcqPending - 1;
      Append(hook);
    }

    lemma PendingInUse(k: nat)
      requires Valid() && k < |pend|
      ensures Q.Counted(st) && |pend| == |st.pending|
      ensures IsHook(pend[k]) && TransOf(pend[k]) in transes && TransOf(pend[k]).hook == pend[k]
      ensures var l := TransOf(pend[k]).latch; l != null && l in latches && l.raised
    {
    }

    /** Lines 251-266. */
    method Deliver(trans: Trans, len: int, response: array<byte>, ghost k: nat)
      requires Valid() && 0 < len <= MAX_RESPONSE_LENGTH && response.Length == BUFFER_SIZE
      requires k < |pend| && pend[k] == trans.hook && TransOf(pend[k]) == trans
      requires Q.Pick(st, Word(response[0], response[1])) == Some(k)
      modifies this, pendQ, rxQ, pend, done, latches, transes`latch, transes`rxResp, transes`rxLen
      ensures Valid() && transes == old(transes) && latches == old(latches)
      ensures st == Q.Step(old(st), Q.Reply(Word(response[0], response[1]), response[..len + 8]))
      ensures pend == Without(old(pend), k) && done == old(done) + [old(pend)[k]]
      ensures old(trans.latch) != null && !old(trans.latch).raised
    {
      hide Shape, Circular, Waiting, Served, Q.Inv;
      PendingInUse(k);
      assert trans.latch.raised;
      ghost var event := Q.Reply(Word(response[0], response[1]), response[..len + 8]);
      ghost var next := Q.Step(st, event);
      Q.StepInv(st, event);
      Answer(trans, len, response, k);
      ServedSnoc(done, st.delivered, trans.hook, Q.Answered(st.pending[k], event.body), transes);
      assert Served(done + [trans.hook], next.delivered, transes);
      assert Waiting(Without(pend, k), next.pending, transes, latches);
      Requeue(trans.hook, k);
      assert Served(done, next.delivered, transes) && Waiting(pend, next.pending, transes, latches);
      st := next;
    }

    // ----- the operations that are not among the sources

    /** Assumed of the transmitting side: it tags the request, raises a latch nobody else uses, appends the
        transaction to the pending queue and counts it. */
    method Enqueue(trans: Trans, latch: Latch)
      requires Valid() && trans !in transes && latch !in latches
      requires trans.hook.owner == trans && |trans.txReq| == |trans.rxResp| == BUFFER_SIZE
      modifies this, pendQ, rxQ, pend, trans`txReq, trans`latch, trans.hook, latch
      ensures Valid() && st == Q.Step(old(st), Q.Send)
      ensures pend == old(pend) + [trans.hook] && done == old(done) && trans.hook == old(trans.hook)
      ensures transes == old(transes) + {trans} && latches == old(latches) + {latch}
      ensures trans.latch == latch && latch.raised
      ensures |trans.txReq| == BUFFER_SIZE && trans.txReq[2..] == old(trans.txReq)[2..]
      ensures 256 * (trans.txReq[0] as int) + trans.txReq[1] == old(seqNum) && seqNum == (old(seqNum) + 1) % 0x1_0000
    {
      hide Shape, Waiting, Served, Q.Inv, TagAfter, Q.Step;
      NotQueued(trans);
      Q.StepInv(st, Q.Send);
      Q.SendStep(st);
      ghost var next := Q.Step(st, Q.Send);
      Admit(trans, latch);
      NextTag(seqNum);
      seqNum := (seqNum + 1) % 0x1_0000;
      tcqPending := tcqPending + 1;
      transes, latches := transes + {trans}, latches + {latch};
      st := next;
      assert Shape();
      assert Waiting(pend, st.pending, transes, latches) && Served(done, st.delivered, transes);
      assert Q.Inv(st);
    }

    /** Tag, latch and append. */
    method Admit(trans: Trans, latch: Latch)
      requires Shape() && Waiting(pend, st.pending, transes, latches) && Served(done, st.delivered, transes)
      requires trans !in transes && latch !in latches && trans.hook !in pend && trans.hook !in done
      requires trans.hook.owner == trans && |trans.txReq| == |trans.rxResp| == BUFFER_SIZE
      modifies trans`txReq, trans`latch, latch, pendQ, pend, trans.hook, `pend
      ensures Shape() && pend == old(pend) + [trans.hook]
      ensures Waiting(pend, st.pending + [Q.Request(st.sent, seqNum)], transes + {trans}, latches + {latch})
      ensures Served(done, st.delivered, transes + {trans})
      ensures CarriesTag(trans, seqNum, old(trans.txReq)) && trans.latch == latch && latch.raised
    {
      hide Shape, Waiting, Served;
      Prepare(trans, latch);
      AppendPending(trans.hook);
    }

    method Prepare(trans: Trans, latch: Latch)
      requires Waiting(pend, st.pending, transes, latches) && Served(done, st.delivered, transes)
      requires trans !in transes && latch !in latches
      requires trans.hook.owner == trans && |trans.txReq| == |trans.rxResp| == BUFFER_SIZE
      modifies trans`txReq, trans`latch, latch
      ensures Waiting(pend + [trans.hook], st.pending + [Q.Request(st.sent, seqNum)],
                      transes + {trans}, latches + {latch})
      ensures Served(done, st.delivered, transes + {trans})
      ensures CarriesTag(trans, seqNum, old(trans.txReq)) && trans.latch == latch && latch.raised
    {
      TwoBytes(seqNum);
      trans.txReq := [seqNum / 256, seqNum % 256] + trans.txReq[2..];
      trans.latch := latch;
      latch.raised := true;
    }

    lemma NotQueued(trans: Trans)
      requires Valid() && trans !in transes && trans.hook.owner == trans
      ensures Q.Counted(st)
      ensures trans.hook !in pend && trans.hook !in done
    {
    }

    /** The first two bytes of the request are the tag, the others what they were. */
    ghost predicate CarriesTag(trans: Trans, tag: u16, before: seq<byte>)
      reads trans`txReq
    {
      && |trans.txReq| == |before| == BUFFER_SIZE && trans.txReq[2..] == before[2..]
      && 256 * (trans.txReq[0] as int) + trans.txReq[1] == tag
    }

    method AppendPending(hook: ListHead)
      requires Shape() && IsHook(hook) && hook !in pend && hook !in done
      modifies pendQ, pend, hook, `pend
      ensures Shape() && pend == old(pend) + [hook]
    {
      assert forall x :: x in [rxQ] + done ==> x !in [pendQ] + pend;
      Neighbours([pendQ] + pend, 0);
      ListAddTail(hook, pendQ, pend);
      pend := pend + [hook];
    }

    /** Assumed of clear_pend_q: every pending transaction is unlinked, its latch cleared, and uncounted. */
    method ClearPendQ()
      requires Valid()
      modifies this, pendQ, rxQ, pend, latches, transes`latch, transes`rxResp, transes`rxLen
      ensures Valid() && st == Q.Step(old(st), Q.Clear)
      ensures pend == [] && done == old(done) && transes == old(transes) && latches == old(latches)
      ensures forall h :: h in old(pend) ==> TransOf(h).latch == null
      ensures forall h :: h in old(pend) ==> !old(TransOf(h).latch).raised
    {
      hide Shape, Waiting, Served, Q.Inv, Q.Step, Clearing;
      ghost var all, n := pend, 0;
      ghost var ls := LatchesOf();
      QueuesMatch();
      ExpiredAll(st);
      while pendQ.next != pendQ
        invariant Valid() && 0 <= n <= |all| == |old(st).pending| && pend == all[n..] && done == old(done)
        invariant transes == old(transes) && latches == old(latches)
        invariant st == Expired(old(st), n) && Clearing(all, ls, n)
        decreases |all| - n
      {
        NothingPendingIff();
        ExpireNext(old(st), n);
        FailNext(all, ls, n);
        n := n + 1;
      }
      NothingPendingIff();
      Cleared(all, ls);
    }

    /** The pending queue is empty exactly if its head leads to itself. */
    lemma NothingPendingIff()
      requires Valid()
      ensures pendQ.next == pendQ <==> pend == []
    {
      NextElement(pendQ, pend, |pend|);
      HeadApart(pendQ, pend);
    }

    /** The latches the pending transactions wait behind. */
    lemma LatchesOf() returns (ls: seq<Latch>)
      requires Valid()
      ensures Clearing(pend, ls, 0)
      ensures forall i :: 0 <= i < |pend| ==> IsHook(pend[i]) && TransOf(pend[i]).latch == ls[i]
    {
      hide Shape, Q.Inv, Served, Distinct;
      ls := [];
      for i := 0 to |pend|
        invariant |ls| == i
        invariant forall j :: 0 <= j < i ==> IsHook(pend[j]) && ls[j] == TransOf(pend[j]).latch && ls[j] in latches
      {
        PendingInUse(i);
        var l: Latch := TransOf(pend[i]).latch;
        ls := ls + [l];
      }
      DistinctHooks();
      DistinctLatches(ls);
    }

    lemma DistinctLatches(ls: seq<Latch>)
      requires Valid() && |ls| == |pend|
      requires forall j :: 0 <= j < |pend| ==> IsHook(pend[j]) && ls[j] == TransOf(pend[j]).latch
      ensures Distinct(ls)
    {
      assert forall i, j :: 0 <= i < j < |ls| ==> ls[i] == TransOf(pend[i]).latch && ls[j] == TransOf(pend[j]).latch;
    }

    lemma DistinctHooks()
      requires Valid()
      ensures Distinct(pend)
    {
      assert forall i :: 0 <= i < |pend| ==> pend[i] == ([pendQ] + pend)[i + 1];
    }

    /** The transactions of `all` are different ones, and so are the latches `ls`. */
    ghost predicate Apart(all: seq<ListHead>, ls: seq<Latch>)
      reads this, transes`hook
    {
      && |all| == |ls| && Distinct(ls) && Distinct(all)
      && (forall i {:trigger all[i]} {:trigger ls[i]} :: 0 <= i < |all| ==>
            IsHook(all[i]) && TransOf(all[i]) in transes && TransOf(all[i]).hook == all[i] && ls[i] in latches)
    }

    /** The transaction has been let go, or it waits behind the latch. */
    ghost predicate IsClear(h: ListHead, l: Latch, clear: bool)
      reads if IsHook(h) then {TransOf(h)} else {}, l
    {
      IsHook(h) && if clear then TransOf(h).latch == null && !l.raised else TransOf(h).latch == l
    }

    /** The first `n` of the transactions of `all` have been let go, the others wait behind the latches `ls`. */
    ghost predicate Clearing(all: seq<ListHead>, ls: seq<Latch>, n: nat)
      reads this, transes, latches
    {
      && Apart(all, ls)
      && (forall i {:trigger all[i]} {:trigger ls[i]} :: 0 <= i < |all| ==> IsClear(all[i], ls[i], i < n))
    }

    lemma Cleared(all: seq<ListHead>, ls: seq<Latch>)
      requires Clearing(all, ls, |all|)
      ensures |ls| == |all|
      ensures forall i :: 0 <= i < |all| ==> IsHook(all[i]) && TransOf(all[i]).latch == null && !ls[i].raised
    {
    }

    method FailNext(ghost all: seq<ListHead>, ghost ls: seq<Latch>, ghost n: nat)
      requires Valid() && pendQ.next != pendQ && n < |all| && pend == all[n..] && Clearing(all, ls, n)
      modifies this, pendQ, pend, latches, transes`latch, transes`rxResp, transes`rxLen
      ensures Valid() && st == Q.Step(old(st), Q.Expire(0)) && pend == all[n + 1..] && Clearing(all, ls, n + 1)
      ensures done == old(done) && transes == old(transes) && latches == old(latches)
    {
      hide Shape, Waiting, Served, Q.Inv, Q.Step;
      assert pend[0] == all[n] && IsClear(all[n], ls[n], false);
      FailFirst();
      forall i {:trigger all[i]} | 0 <= i < |all| ensures IsClear(all[i], ls[i], i < n + 1) {
        assert old(IsClear(all[i], ls[i], i < n));
        assert i != n ==> ls[i] != ls[n] && TransOf(all[i]) != TransOf(all[n]);
      }
    }

    /** What the queue is when its first `n` requests have expired. */
    ghost function Expired(s: Q.State, n: nat): Q.State
      requires n <= |s.pending|
    {
      s.(pending := s.pending[n..], count := |s.pending| - n, failed := s.failed + s.pending[..n])
    }

    lemma ExpireNext(s: Q.State, n: nat)
      requires n < |s.pending|
      ensures Q.Step(Expired(s, n), Q.Expire(0)) == Expired(s, n + 1)
    {
      assert s.pending[..n + 1] == s.pending[..n] + [s.pending[n]];
    }

    lemma ExpiredAll(s: Q.State)
      requires Q.Counted(s)
      ensures Expired(s, 0) == s && Expired(s, |s.pending|) == Q.Step(s, Q.Clear)
    {
      assert s.pending[..|s.pending|] == s.pending;
    }

    /** The first pending transaction fails. */
    method FailFirst()
      requires Valid() && pendQ.next != pendQ
      modifies this, pendQ, pend, latches, transes`latch, transes`rxResp, transes`rxLen
      ensures old(pend) != [] && Valid() && st == Q.Step(old(st), Q.Expire(0))
      ensures pend == old(pend)[1..] && done == old(done) && transes == old(transes) && latches == old(latches)
      ensures TransOf(old(pend)[0]).latch == null && old(TransOf(pend[0]).latch) != null
      ensures !old(TransOf(pend[0]).latch).raised
      ensures forall l :: l in latches && l != old(TransOf(pend[0]).latch) ==> l.raised == old(l.raised)
      ensures forall t :: t in transes && t != TransOf(old(pend)[0]) ==> t.latch == old(t.latch)
    {
      hide Ring, Waiting, Served, Q.Inv;
      NextElement(pendQ, pend, |pend|);
      PendingInUse(0);
      ghost var next := Q.Step(st, Q.Expire(0));
      Q.StepInv(st, Q.Expire(0));
      var trans := pendQ.next.owner as Trans;
      Unlatch(trans);
      assert Waiting(Without(pend, 0), next.pending, transes, latches);
      Unlink(trans.hook, 0);
      tcqPending := tcqPending - 1;
      st := next;
      assert Waiting(pend, st.pending, transes, latches) && Served(done, st.delivered, transes);
      assert Shape() && Q.Inv(st);
    }

    method Unlatch(trans: Trans)
      requires Shape() && Waiting(pend, st.pending, transes, latches) && Served(done, st.delivered, transes)
      requires pend != [] && pend[0] == trans.hook && TransOf(pend[0]) == trans
      modifies trans`latch, trans.latch
      ensures Waiting(Without(pend, 0), Without(st.pending, 0), transes, latches)
      ensures Served(done, st.delivered, transes)
      ensures trans.latch == null && old(trans.latch) != null && !old(trans.latch).raised
    {
      ElementsDiffer(pendQ, pend, 0);
      trans.latch.raised := false;
      trans.latch := null;
    }

    /** One turn of the receive loop (lines 168-277): wait for a frame and act on what recv_frame returns.
        Only a positive length is a response; a frame without payload is treated as a minor error. `start` is the
        input from the first byte that was read on. */
    method ReceiveOnce(link: Receiver, response: array<byte>)
        returns (r: int, finished: bool, ghost start: seq<Event>)
      requires Valid() && response.Length == BUFFER_SIZE
      modifies this, pendQ, rxQ, pend, done, latches, transes`latch, transes`rxResp, transes`rxLen, link, response
      ensures Valid() && transes == old(transes) && latches == old(latches) && Legal(r)
      ensures start == old(link.input) || start == Awake(old(link.input))
      ensures Awake(old(link.input)) != [] ==> start == Awake(old(link.input))
      ensures old(link.shutdown) == None ==>
        && !finished && link.shutdown == None && r == Outcome(start)
        && (r != -111 ==> Holds(response[..], start, Taken(start)))
        && (Taken(start) >= 6 && Taken(start) == StopAt(start) ==> link.input == start[Taken(start)..])
      ensures st == if finished then old(st)
                    else if r == -111 then Q.Step(old(st), Q.Clear)
                    else if r <= 0 then old(st)
                    else Q.Step(old(st), Q.Reply(Word(response[0], response[1]), response[..r + 8]))
      ensures finished || r == 0 || r == -16 || r == -20 || r == -21 ==> pend == old(pend) && done == old(done)
      ensures !finished && r == -111 ==> pend == [] && done == old(done)
      ensures old(link.shutdown) == None && HungUp(start) ==> r == -111 && !link.valid && pend == []
      ensures !finished && r > 0 ==> match Q.Pick(old(st), Word(response[0], response[1]))
        case None => pend == old(pend) && done == old(done)
        case Some(k) => pend == Without(old(pend), k) && done == old(done) + [old(pend)[k]]
    {
      hide Shape, Waiting, Served, Q.Inv, Q.Counted, Q.Step, Q.Pick;
      hide Outcome, Taken, Holds, StopAt, Burst, Awake, HungUp;
      r, start := RecvFrame(link, response, 0);
      finished := link.Finished();
      if finished {
        return;
      } else if r <= REOPEN_DUE {
        ClearPendQ();
      } else if r <= 0 {
      } else {
        HandleResponse(r, response);
      }
    }

    // ----- from the wire to the transaction

    /** One turn of the loop on a whole frame that carries a payload, after any silence and before any input: exactly
        its bytes make the delivery step. */
    method ReceiveFrame(link: Receiver, response: array<byte>,
                        ghost m: Msg, ghost idle: nat, ghost rest: seq<Event>) returns (ghost body: seq<byte>)
      requires Valid() && response.Length == BUFFER_SIZE
      requires link.shutdown == None && 0 < |m.payload| <= MAX_RESPONSE_LENGTH
      requires link.input == Silence(idle) + (Arrival(Frame(m.tag, m.payload)) + rest)
      modifies this, pendQ, rxQ, pend, done, latches, transes`latch, transes`rxResp, transes`rxLen, link, response
      ensures Valid() && transes == old(transes) && latches == old(latches)
      ensures link.shutdown == None && link.input == rest
      ensures |body| == |m.payload| + 8 && body[..6 + |m.payload|] == Frame(m.tag, m.payload)
      ensures st == Q.Step(old(st), Q.Reply(m.tag, body))
      ensures match Q.Pick(old(st), m.tag)
        case None => pend == old(pend) && done == old(done)
        case Some(k) => pend == Without(old(pend), k) && done == old(done) + [old(pend)[k]]
    {
      hide Shape, Waiting, Served, Q.Inv, Q.Step, Taken, Outcome, Holds, Burst, StopAt, Announced;
      ghost var input := Arrival(Frame(m.tag, m.payload)) + rest;
      assert input[0] == Byte(m.tag / 256);
      AwakeAfterSilence(idle, input);
      FrameReadIff(m, rest);
      FrameArrives(m, rest);
      var r, finished;
      ghost var start;
      r, finished, start := ReceiveOnce(link, response);
      assert start == input;
      HeldFrame(response[..], m, rest);
      body := response[..r + 8];
    }

    /** The frame is the answer to a pending request inside the window: it reaches the transaction with that tag. */
    method ServeNext(link: Receiver, response: array<byte>, ghost request: Q.Request,
                     ghost payload: seq<byte>, ghost idle: nat, ghost rest: seq<Event>)
        returns (ghost body: seq<byte>, ghost k: nat)
      requires Valid() && Q.Windowed(st) && request in st.pending && response.Length == BUFFER_SIZE
      requires link.shutdown == None && 0 < |payload| <= MAX_RESPONSE_LENGTH
      requires link.input == Silence(idle) + (Arrival(Frame(request.tag, payload)) + rest)
      modifies this, pendQ, rxQ, pend, done, latches, transes`latch, transes`rxResp, transes`rxLen, link, response
      ensures Valid() && transes == old(transes) && latches == old(latches)
      ensures link.shutdown == None && link.input == rest
      ensures Q.Windowed(st) && multiset(st.pending) == multiset(old(st).pending) - multiset{request}
      ensures st.delivered == old(st).delivered + [Q.Answered(request, body)]
      ensures Carries(body, request.tag, payload)
      ensures k < |old(pend)| && pend == Without(old(pend), k) && done == old(done) + [old(pend)[k]]
      ensures HasTag(old(pend)[k], request.tag, transes)
    {
      hide Shape, Waiting, Served, Q.Windowed;
      ghost var before := st;
      k := Delivered(request);
      body := ReceiveFrame(link, response, Msg(request.tag, payload), idle, rest);
      Q.DeliverNext(before, request, body);
    }

    /** Where in the queue the request is that a response with its tag is delivered to. */
    lemma Delivered(request: Q.Request) returns (k: nat)
      requires Valid() && Q.Windowed(st) && request in st.pending
      ensures Q.Inv(st) && k < |pend| && Q.Pick(st, request.tag) == Some(k) && HasTag(pend[k], request.tag, transes)
    {
      Q.DeliverNext(st, request, []);
      k := Q.Pick(st, request.tag).value;
      assert st.pending[k].tag == request.tag by {
        if st.depth == 1 && st.count == 1 {
          assert st.pending == [request];
        }
      }
      assert WaitsFor(pend[k], st.pending[k].tag, transes, latches);
    }

    /** Between two turns: the first `i` answers have been delivered, the others are still to come. */
    ghost predicate Serving(link: Receiver, order: seq<Q.Request>, payloads: seq<seq<byte>>, idle: seq<nat>,
                            tail: seq<Event>, i: nat, pend0: seq<ListHead>, done0: seq<ListHead>)
      requires i <= |order| == |payloads| == |idle|
      reads this, link, transes`txReq
    {
      && Q.Windowed(st) && multiset(st.pending) == multiset(order[i..])
      && link.shutdown == None
      && link.input == Stream(Answers(order, payloads)[i..], idle[i..]) + tail
      && |done| == |st.delivered| == |done0| + i && Moved(pend, done, pend0, done0)
      && AnswersArrived(done, st.delivered, |done0|, order, payloads, i, transes)
    }

    /** One turn. */
    method ServeStep(link: Receiver, response: array<byte>, ghost order: seq<Q.Request>, ghost payloads: seq<seq<byte>>,
                     ghost idle: seq<nat>, ghost tail: seq<Event>, ghost i: nat,
                     ghost pend0: seq<ListHead>, ghost done0: seq<ListHead>)
      requires Valid() && response.Length == BUFFER_SIZE
      requires i < |order| == |payloads| == |idle| && 0 < |payloads[i]| <= MAX_RESPONSE_LENGTH
      requires Serving(link, order, payloads, idle, tail, i, pend0, done0)
      modifies this, pendQ, rxQ, pend, done, latches, transes`latch, transes`rxResp, transes`rxLen, link, response
      ensures Valid() && transes == old(transes) && latches == old(latches)
      ensures Serving(link, order, payloads, idle, tail, i + 1, pend0, done0)
    {
      hide Shape, Waiting, Served, Q.Inv, Q.Windowed, Frame, Stream, HasTag, Carries, Moved, AnswersArrived;
      StreamUnfold(Answers(order, payloads), idle, i, tail);
      Q.HeadOfPermutation(order[i..], st.pending);
      ghost var pend1, done1, delivered1 := pend, done, st.delivered;
      ghost var rest := Stream(Answers(order, payloads)[i + 1..], idle[i + 1..]) + tail;
      ghost var body, k := ServeNext(link, response, order[i], payloads[i], idle[i], rest);
      MovedStep(pend1, done1, pend0, done0, k);
      AnsweredStep(done1, delivered1, |done0|, order, payloads, i, transes, pend1[k], body);
      assert order[i..][1..] == order[i + 1..];
    }

    /** End to end: the answers to all pending requests come as frames in any order, each with the tag of its request
        and a payload, with any silences between them. As many turns of the loop as there are requests leave
        nothing pending, and every transaction holds exactly the response with its tag. */
    method ServeAll(link: Receiver, response: array<byte>, count: nat, ghost order: seq<Q.Request>,
                    ghost payloads: seq<seq<byte>>, ghost idle: seq<nat>, ghost tail: seq<Event>)
      requires Valid() && Q.Windowed(st) && multiset(order) == multiset(st.pending)
      requires count == |order| == |payloads| == |idle| && response.Length == BUFFER_SIZE
      requires forall i {:trigger payloads[i]} :: 0 <= i < count ==> 0 < |payloads[i]| <= MAX_RESPONSE_LENGTH
      requires link.shutdown == None && link.input == Stream(Answers(order, payloads), idle) + tail
      modifies this, pendQ, rxQ, pend, done, latches, transes`latch, transes`rxResp, transes`rxLen, link, response
      ensures Valid() && transes == old(transes) && latches == old(latches)
      ensures link.shutdown == None && link.input == tail
      ensures pend == [] && |done| == |old(done)| + count && old(done) <= done
      ensures multiset(done) == multiset(old(done)) + multiset(old(pend))
      ensures forall i :: 0 <= i < count ==> HoldsAnswer(done[|old(done)| + i], order[i].tag, payloads[i], transes)
    {
      hide Shape, Waiting, Served, Q.Inv, Q.Windowed, Serving, HoldsAnswer;
      ghost var pend0, done0 := pend, done;
      ServingStarts(link, order, payloads, idle, tail);
      for i := 0 to count
        invariant Valid() && transes == old(transes) && latches == old(latches)
        invariant Serving(link, order, payloads, idle, tail, i, pend0, done0)
      {
        ServingFrame(link, order, payloads, idle, tail, i, pend0, done0);
        ServeStep(link, response, order, payloads, idle, tail, i, pend0, done0);
      }
      ServingEnds(link, order, payloads, idle, tail, pend0, done0);
    }

    lemma ServingStarts(link: Receiver, order: seq<Q.Request>, payloads: seq<seq<byte>>, idle: seq<nat>,
                        tail: seq<Event>)
      requires Valid() && Q.Windowed(st) && multiset(order) == multiset(st.pending)
      requires |order| == |payloads| == |idle| && link.shutdown == None
      requires link.input == Stream(Answers(order, payloads), idle) + tail
      ensures Serving(link, order, payloads, idle, tail, 0, pend, done)
    {
      hide Shape, Waiting, Served, Q.Inv, Q.Windowed, Stream, HasTag, Carries, Moved, AnswersArrived;
      var msgs := Answers(order, payloads);
      assert order[0..] == order && msgs[0..] == msgs && idle[0..] == idle;
      QueuesMatch();
      NothingMoved(pend, done);
      NothingAnswered(done, st.delivered, order, payloads, transes);
    }

    /** A turn writes only what was there at the start. */
    lemma ServingFrame(link: Receiver, order: seq<Q.Request>, payloads: seq<seq<byte>>, idle: seq<nat>,
                       tail: seq<Event>, i: nat, pend0: seq<ListHead>, done0: seq<ListHead>)
      requires i <= |order| == |payloads| == |idle| && Serving(link, order, payloads, idle, tail, i, pend0, done0)
      ensures forall j :: 0 <= j < |pend| ==> pend[j] in pend0
      ensures forall j :: 0 <= j < |done| ==> done[j] in done0 || done[j] in pend0
    {
      hide AnswersArrived, Stream;
    }

    lemma ServingEnds(link: Receiver, order: seq<Q.Request>, payloads: seq<seq<byte>>, idle: seq<nat>, tail: seq<Event>,
                      pend0: seq<ListHead>, done0: seq<ListHead>)
      requires Valid() && |order| == |payloads| == |idle|
      requires Serving(link, order, payloads, idle, tail, |order|, pend0, done0)
      ensures link.shutdown == None && link.input == tail
      ensures pend == [] && |done| == |done0| + |order| && done0 <= done
      ensures multiset(done) == multiset(done0) + multiset(pend0)
      ensures forall i :: 0 <= i < |order| ==> HoldsAnswer(done[|done0| + i], order[i].tag, payloads[i], transes)
    {
      hide Shape, Waiting, Served, Q.Inv, Q.Windowed, Stream, HasTag, Carries, Moved, AnswersArrived, HoldsAnswer;
      QueuesMatch();
      StreamEnds(Answers(order, payloads), idle, tail);
      NonePending(st.pending, order);
      AnswersHeld(|done0|, order, payloads, |order|);
      MovedFrame(pend, done, pend0, done0);
    }

    lemma AnswersHeld(base: nat, order: seq<Q.Request>, payloads: seq<seq<byte>>, n: nat)
      requires Valid() && |done| == |st.delivered| == base + n && n <= |order| && n <= |payloads|
      requires AnswersArrived(done, st.delivered, base, order, payloads, n, transes)
      ensures forall i :: 0 <= i < n ==> HoldsAnswer(done[base + i], order[i].tag, payloads[i], transes)
    {
      hide Shape, Waiting, Served, Q.Inv, HasTag, Carries, HoldsAnswer;
      forall i | 0 <= i < n ensures HoldsAnswer(done[base + i], order[i].tag, payloads[i], transes) {
        AnswerHeld(base + i, order[i].tag, payloads[i]);
      }
    }

    lemma QueuesMatch()
      requires Valid()
      ensures |pend| == |st.pending| && |done| == |st.delivered| && Q.Counted(st)
    {
    }

    lemma AnswerHeld(i: nat, tag: u16, payload: seq<byte>)
      requires Valid() && i < |done| == |st.delivered|
      requires HasTag(done[i], tag, transes) && Carries(st.delivered[i].body, tag, payload)
      ensures HoldsAnswer(done[i], tag, payload, transes)
    {
      var t := TransOf(done[i]);
      assert HasGot(done[i], st.delivered[i].body, transes);
      assert t.rxResp[..6 + |payload|] == t.rxResp[..t.rxLen + 8][..6 + |payload|];
    }
  }

  // ----- bookkeeping of ServeAll

  /** Elements have moved from the end of one queue's life to the end of the other; none is lost, doubled or new. */
  ghost predicate Moved(pend: seq<ListHead>, done: seq<ListHead>, pend0: seq<ListHead>, done0: seq<ListHead>) {
    && done0 <= done && multiset(done) + multiset(pend) == multiset(done0) + multiset(pend0)
    && (forall j :: 0 <= j < |pend| ==> pend[j] in pend0)
    && (forall j :: 0 <= j < |done| ==> done[j] in done0 || done[j] in pend0)
  }

  lemma NothingMoved(pend: seq<ListHead>, done: seq<ListHead>)
    ensures Moved(pend, done, pend, done)
  {
  }

  lemma MovedFrame(pend: seq<ListHead>, done: seq<ListHead>, pend0: seq<ListHead>, done0: seq<ListHead>)
    requires Moved(pend, done, pend0, done0)
    ensures forall j :: 0 <= j < |pend| ==> pend[j] in pend0
    ensures forall j :: 0 <= j < |done| ==> done[j] in done0 || done[j] in pend0
    ensures done0 <= done && multiset(done) + multiset(pend) == multiset(done0) + multiset(pend0)
  {
  }

  lemma MovedStep(pend: seq<ListHead>, done: seq<ListHead>, pend0: seq<ListHead>, done0: seq<ListHead>, k: nat)
    requires Moved(pend, done, pend0, done0) && k < |pend|
    ensures Moved(Without(pend, k), done + [pend[k]], pend0, done0)
  {
    var p, d := Without(pend, k), done + [pend[k]];
    Q.RemovedMultiset(pend, k);
    assert multiset(d) == multiset(done) + multiset{pend[k]};
    assert forall j :: 0 <= j < |p| ==> p[j] == pend[if j < k then j else j + 1];
  }

  /** The first `n` of the transactions delivered since there were `base` have their tags, and their answers arrived. */
  ghost predicate AnswersArrived(done: seq<ListHead>, delivered: seq<Q.Answered>, base: nat,
                           order: seq<Q.Request>, payloads: seq<seq<byte>>, n: nat, ts: set<Trans>)
    requires |done| == |delivered| == base + n && n <= |order| && n <= |payloads|
    reads ts`txReq
  {
    && (forall j :: 0 <= j < n ==> HasTag(done[base + j], order[j].tag, ts))
    && (forall j :: 0 <= j < n ==> Carries(delivered[base + j].body, order[j].tag, payloads[j]))
  }

  lemma NothingAnswered(done: seq<ListHead>, delivered: seq<Q.Answered>,
                        order: seq<Q.Request>, payloads: seq<seq<byte>>, ts: set<Trans>)
    requires |done| == |delivered|
    ensures AnswersArrived(done, delivered, |done|, order, payloads, 0, ts)
  {
  }

  lemma AnsweredStep(done: seq<ListHead>, delivered: seq<Q.Answered>, base: nat, order: seq<Q.Request>,
                     payloads: seq<seq<byte>>, n: nat, ts: set<Trans>, h: ListHead, body: seq<byte>)
    requires |done| == |delivered| == base + n && n < |order| && n < |payloads|
    requires AnswersArrived(done, delivered, base, order, payloads, n, ts)
    requires HasTag(h, order[n].tag, ts) && Carries(body, order[n].tag, payloads[n])
    ensures AnswersArrived(done + [h], delivered + [Q.Answered(order[n], body)], base, order, payloads, n + 1, ts)
  {
    hide HasTag, Carries;
  }

  lemma NonePending(pending: seq<Q.Request>, order: seq<Q.Request>)
    requires multiset(pending) == multiset(order[|order|..])
    ensures pending == []
  {
    assert |multiset(pending)| == |pending|;
    assert order[|order|..] == [];
  }

  /** The request of the transaction with this hook carries the tag. */
  ghost predicate HasTag(h: ListHead, tag: u16, ts: set<Trans>)
    reads ts`txReq
  {
    IsHook(h) && TransOf(h) in ts && var t := TransOf(h);
    |t.txReq| == BUFFER_SIZE && Word(t.txReq[0], t.txReq[1]) == tag
  }

  ghost predicate Carries(body: seq<byte>, tag: u16, payload: seq<byte>) {
    |body| == |payload| + 8 && body[..6 + |payload|] == Frame(tag, payload)
  }

  /** The transaction with this hook asked with the tag, is waited for no longer, and has the frame with the same tag
      and the payload as its response. */
  ghost predicate HoldsAnswer(h: ListHead, tag: u16, payload: seq<byte>, ts: set<Trans>)
    reads ts
  {
    HasTag(h, tag, ts) && var t := TransOf(h);
    && t.latch == null && t.rxLen == |payload|
    && 6 + |payload| <= |t.rxResp| && t.rxResp[..6 + |payload|] == Frame(tag, payload)
  }

  /** The frames that answer the requests. */
  function Answers(order: seq<Q.Request>, payloads: seq<seq<byte>>): seq<Msg>
    requires |order| == |payloads|
  {
    seq(|order|, i requires 0 <= i < |order| => Msg(order[i].tag, payloads[i]))
  }
}
