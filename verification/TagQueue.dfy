/** Tagged queuing on a Modbus/TCP master (sdk/acq_modbus/Acq.c, rx_thr_master; the tags are those of
    send_frame in sdk/acq_modbus/modbus_tcp.c), as a step system over values.  RxMaster has the same
    operations on the heap and proves that each of them makes one of these steps.

    The transmitting side, clear_pend_q and the garbage collector are not among the sources.  Assumed of
    them: a request is tagged, appended to the pending queue and counted; clearing and expiry take
    requests out of the queue and uncount them. */
module TagQueue {
  import opened Basics
  import opened MbapFraming

  /** A transaction on its way: `id` is history, the number of requests sent before it. */
  datatype Request = Request(id: nat, tag: u16)
  datatype Answered = Answered(request: Request, body: seq<byte>)

  /** `count` is tcq_pending, `depth` tcq_depth; `sent` is history. */
  datatype State = State(depth: int, count: int, base: u16, sent: nat,
                         pending: seq<Request>, delivered: seq<Answered>, failed: seq<Request>)

  function Init(depth: int, base: u16): State {
    State(depth, 0, base, 0, [], [], [])
  }

  /** The list search: the first pending request from `i` on with the tag. */
  function FirstWith(pending: seq<Request>, tag: u16, i: nat): (r: Option<nat>)
    requires i <= |pending|
    ensures r.Some? ==> i <= r.value < |pending| && pending[r.value].tag == tag
    ensures r.Some? ==> forall j :: i <= j < r.value ==> pending[j].tag != tag
    ensures r == None ==> forall j :: i <= j < |pending| ==> pending[j].tag != tag
    decreases |pending| - i
  {
    if i == |pending| then None
    else if pending[i].tag == tag then Some(i)
    else FirstWith(pending, tag, i + 1)
  }

  ghost predicate Counted(s: State) {
    s.count == |s.pending|
  }

  /** The transaction a reply is for: searched by tag, or the only one on an untagged bus. */
  function Pick(s: State, tag: u16): (r: Option<nat>)
    requires Counted(s)
    ensures r.Some? ==> r.value < |s.pending|
  {
    if s.depth != 1 || s.count > 1 then FirstWith(s.pending, tag, 0)
    else if s.count == 1 then Some(0) else None
  }

  datatype Event = Send | Reply(tag: u16, body: seq<byte>) | Expire(i: nat) | Clear | SetDepth(depth: int)

  function Step(s: State, e: Event): (t: State)
    requires Counted(s)
    ensures Counted(t)
  {
    match e
    case Send =>
      s.(pending := s.pending + [Request(s.sent, TagAfter(s.base, s.sent))], count := s.count + 1, sent := s.sent + 1)
    case Reply(tag, body) =>
      (match Pick(s, tag)
       case None => s
       case Some(i) => s.(pending := Without(s.pending, i), count := s.count - 1,
                          delivered := s.delivered + [Answered(s.pending[i], body)]))
    case Expire(i) =>
      if i >= |s.pending| then s
      else s.(pending := Without(s.pending, i), count := s.count - 1, failed := s.failed + [s.pending[i]])
    case Clear => s.(pending := [], count := 0, failed := s.failed + s.pending)
    case SetDepth(d) => s.(depth := d)
  }

  function Run(s: State, events: seq<Event>): (t: State)
    requires Counted(s)
    ensures Counted(t)
    decreases |events|
  {
    if events == [] then s else Run(Step(s, events[0]), events[1..])
  }

  // ----- conservation

  /** The tag is the low 16 bits of the send count, and the queue is in sending order. */
  ghost predicate InOrder(pending: seq<Request>, base: u16, sent: nat) {
    && (forall i {:trigger pending[i]} :: 0 <= i < |pending| ==>
          pending[i].id < sent && pending[i].tag == TagAfter(base, pending[i].id))
    && (forall i, j {:trigger pending[i], pending[j]} :: 0 <= i < j < |pending| ==> pending[i].id < pending[j].id)
  }

  ghost predicate Inv(s: State) {
    Counted(s) && InOrder(s.pending, s.base, s.sent)
  }

  lemma RemovedInOrder(pending: seq<Request>, base: u16, sent: nat, i: nat)
    requires InOrder(pending, base, sent) && i < |pending|
    ensures InOrder(Without(pending, i), base, sent)
  {
  }

  lemma SentInOrder(pending: seq<Request>, base: u16, sent: nat)
    requires InOrder(pending, base, sent)
    ensures InOrder(pending + [Request(sent, TagAfter(base, sent))], base, sent + 1)
  {
  }

  lemma StepInv(s: State, e: Event)
    requires Inv(s)
    ensures Inv(Step(s, e))
  {
    hide InOrder;
    match e
    case Send => SentInOrder(s.pending, s.base, s.sent);
    case Reply(tag, _) =>
      var pick := Pick(s, tag);
      if pick.Some? {
        RemovedInOrder(s.pending, s.base, s.sent, pick.value);
      }
    case Expire(i) =>
      if i < |s.pending| {
        RemovedInOrder(s.pending, s.base, s.sent, i);
      }
    case Clear => NoneInOrder(s.base, s.sent);
    case SetDepth(_) =>
  }

  lemma NoneInOrder(base: u16, sent: nat)
    ensures InOrder([], base, sent)
  {
  }

  /** What a send does, the next tag included. */
  lemma SendStep(s: State)
    requires Counted(s)
    ensures Step(s, Send) == s.(pending := s.pending + [Request(s.sent, TagAfter(s.base, s.sent))],
                                count := s.count + 1, sent := s.sent + 1)
    ensures TagAfter(TagAfter(s.base, s.sent), 1) == TagAfter(s.base, s.sent + 1)
  {
    TagStep(s.base, s.sent);
  }

  function Requests(done: seq<Answered>): (r: seq<Request>)
    ensures |r| == |done| && forall i :: 0 <= i < |done| ==> r[i] == done[i].request
  {
    seq(|done|, i requires 0 <= i < |done| => done[i].request)
  }

  /** Where requests can be. */
  ghost function Everywhere(s: State): multiset<Request> {
    multiset(s.pending) + multiset(Requests(s.delivered)) + multiset(s.failed)
  }

  /** The requests sent so far, each once. */
  ghost function Issued(base: u16, n: nat): multiset<Request> {
    if n == 0 then multiset{} else Issued(base, n - 1) + multiset{Request(n - 1, TagAfter(base, n - 1))}
  }

  lemma RemovedMultiset<T>(q: seq<T>, i: nat)
    requires i < |q|
    ensures multiset(q) == multiset(Without(q, i)) + multiset{q[i]}
  {
    assert q == q[..i] + ([q[i]] + q[i + 1..]);
  }

  lemma RequestsSnoc(done: seq<Answered>, a: Answered)
    ensures Requests(done + [a]) == Requests(done) + [a.request]
  {
  }

  /** One request moves from the pending queue to another collection. */
  lemma MoveConserves(p: seq<Request>, i: nat, d: multiset<Request>, f: multiset<Request>)
    requires i < |p|
    ensures multiset(Without(p, i)) + (d + multiset{p[i]}) + f == multiset(p) + d + f
    ensures multiset(Without(p, i)) + d + (f + multiset{p[i]}) == multiset(p) + d + f
  {
    RemovedMultiset(p, i);
  }

  lemma SnocMultiset(q: seq<Request>, r: Request)
    ensures multiset(q + [r]) == multiset(q) + multiset{r}
  {
  }

  lemma TransferConserves(s: State, e: Event)
    requires Counted(s) && !e.Send?
    ensures Everywhere(Step(s, e)) == Everywhere(s)
  {
    var d, f := multiset(Requests(s.delivered)), multiset(s.failed);
    match e
    case Reply(tag, body) => ReplyConserves(s, tag, body);
    case Expire(i) =>
      if i < |s.pending| {
        SnocMultiset(s.failed, s.pending[i]);
        MoveConserves(s.pending, i, d, f);
      }
    case Clear => assert multiset(s.failed + s.pending) == f + multiset(s.pending);
    case SetDepth(_) =>
  }

  lemma ReplyConserves(s: State, tag: u16, body: seq<byte>)
    requires Counted(s)
    ensures Everywhere(Step(s, Reply(tag, body))) == Everywhere(s)
  {
    hide Pick;
    var pick := Pick(s, tag);
    if pick.Some? {
      var r := s.pending[pick.value];
      RequestsSnoc(s.delivered, Answered(r, body));
      SnocMultiset(Requests(s.delivered), r);
      MoveConserves(s.pending, pick.value, multiset(Requests(s.delivered)), multiset(s.failed));
    }
  }

  lemma Shuffle<T>(a: multiset<T>, b: multiset<T>, c: multiset<T>, x: multiset<T>)
    ensures (a + x) + b + c == a + b + c + x
  {
  }

  lemma SendConserves(s: State)
    requires Counted(s)
    ensures Everywhere(Step(s, Send)) == Everywhere(s) + multiset{Request(s.sent, TagAfter(s.base, s.sent))}
  {
    hide Step, TagAfter;
    SendStep(s);
    var r := Request(s.sent, TagAfter(s.base, s.sent));
    SnocMultiset(s.pending, r);
    Shuffle(multiset(s.pending), multiset(Requests(s.delivered)), multiset(s.failed), multiset{r});
  }

  lemma IssuedNext(base: u16, n: nat)
    ensures Issued(base, n + 1) == Issued(base, n) + multiset{Request(n, TagAfter(base, n))}
  {
  }

  /** How a step counts the sends. */
  lemma StepSent(s: State, e: Event)
    requires Counted(s)
    ensures Step(s, e).base == s.base && Step(s, e).sent == if e.Send? then s.sent + 1 else s.sent
  {
    hide Pick;
  }

  lemma StepConserves(s: State, e: Event)
    requires Counted(s) && Everywhere(s) == Issued(s.base, s.sent)
    ensures Everywhere(Step(s, e)) == Issued(s.base, Step(s, e).sent)
  {
    hide Step, Everywhere, Issued, TagAfter;
    StepSent(s, e);
    if e.Send? {
      SendConserves(s);
      IssuedNext(s.base, s.sent);
    } else {
      TransferConserves(s, e);
    }
  }

  ghost predicate Conserved(s: State) {
    Inv(s) && Everywhere(s) == Issued(s.base, s.sent)
  }

  lemma StepConserved(s: State, e: Event)
    requires Conserved(s)
    ensures Counted(s) && Conserved(Step(s, e))
  {
    hide Step, Everywhere, Issued, InOrder;
    StepInv(s, e);
    StepSent(s, e);
    StepConserves(s, e);
  }

  /** Over every run, tcq_pending is the length of the pending queue, and every request sent is in exactly one
      of the pending queue, the delivered queue and the failed ones. */
  lemma {:induction false} RunConserves(s: State, events: seq<Event>)
    requires Conserved(s)
    ensures Conserved(Run(s, events)) && Run(s, events).count == |Run(s, events).pending|
    decreases |events|
  {
    hide Step, Everywhere, Issued, InOrder;
    if events != [] {
      StepConserved(s, events[0]);
      RunConserves(Step(s, events[0]), events[1..]);
    }
  }

  /** From power-up on, on a bus with any queue depth and any first tag. */
  lemma EveryRunConserves(depth: int, base: u16, events: seq<Event>)
    ensures var t := Run(Init(depth, base), events);
      Inv(t) && t.count == |t.pending| && Everywhere(t) == Issued(t.base, t.sent)
  {
    hide Run, Everywhere, Issued, InOrder;
    InitConserved(depth, base);
    RunConserves(Init(depth, base), events);
  }

  lemma InitConserved(depth: int, base: u16)
    ensures Conserved(Init(depth, base))
  {
    assert Requests([]) == [];
  }

  // ----- tags

  ghost predicate DistinctTags(s: State) {
    forall i, j {:trigger s.pending[i], s.pending[j]} ::
      0 <= i < j < |s.pending| ==> s.pending[i].tag != s.pending[j].tag
  }

  /** Every pending request is among the last 65536 sends. */
  ghost predicate Windowed(s: State) {
    forall i {:trigger s.pending[i]} :: 0 <= i < |s.pending| ==> s.sent - s.pending[i].id <= 0x1_0000
  }

  lemma TagsDiffer(base: u16, a: nat, b: nat)
    requires a < b < a + 0x1_0000
    ensures TagAfter(base, a) != TagAfter(base, b)
  {
  }

  lemma WindowedTagsDistinct(s: State)
    requires Inv(s) && Windowed(s)
    ensures DistinctTags(s)
  {
    forall i, j {:trigger s.pending[i], s.pending[j]} | 0 <= i < j < |s.pending|
      ensures s.pending[i].tag != s.pending[j].tag
    {
      TagsDiffer(s.base, s.pending[i].id, s.pending[j].id);
    }
  }

  /** A reply with the tag of the pending request `i` is delivered to that request and to no other. */
  ghost predicate DeliversOwn(s: State, i: nat, body: seq<byte>)
    requires Counted(s) && i < |s.pending|
  {
    Step(s, Reply(s.pending[i].tag, body)) ==
      s.(pending := Without(s.pending, i), count := s.count - 1,
         delivered := s.delivered + [Answered(s.pending[i], body)])
  }

  /** Replies find their requests, whichever comes first, if and only if the pending tags are distinct. */
  lemma DeliveryIffDistinct(s: State)
    requires Inv(s)
    ensures DistinctTags(s) <==> forall i: nat, body :: i < |s.pending| ==> DeliversOwn(s, i, body)
  {
    if DistinctTags(s) {
      forall i: nat, body | i < |s.pending| ensures DeliversOwn(s, i, body) {
        assert Pick(s, s.pending[i].tag) == Some(i);
      }
    } else {
      var i, j :| 0 <= i < j < |s.pending| && s.pending[i].tag == s.pending[j].tag;
      var t := Step(s, Reply(s.pending[j].tag, []));
      var k := Pick(s, s.pending[j].tag).value;
      assert t.delivered[|s.delivered|] == Answered(s.pending[k], []) && s.pending[k].id < s.pending[j].id;
      assert !DeliversOwn(s, j, []);
    }
  }

  function Replies(order: seq<Request>, bodies: seq<seq<byte>>): seq<Event>
    requires |order| == |bodies|
  {
    seq(|order|, i requires 0 <= i < |order| => Reply(order[i].tag, bodies[i]))
  }

  function Zip(order: seq<Request>, bodies: seq<seq<byte>>): seq<Answered>
    requires |order| == |bodies|
  {
    seq(|order|, i requires 0 <= i < |order| => Answered(order[i], bodies[i]))
  }

  lemma DeliverNext(t: State, r: Request, body: seq<byte>)
    requires Inv(t) && Windowed(t) && r in t.pending
    ensures var u := Step(t, Reply(r.tag, body));
      && Inv(u) && Windowed(u) && multiset(u.pending) == multiset(t.pending) - multiset{r}
      && u.delivered == t.delivered + [Answered(r, body)] && u.failed == t.failed
  {
    var i :| 0 <= i < |t.pending| && t.pending[i] == r;
    WindowedTagsDistinct(t);
    DeliveryIffDistinct(t);
    assert DeliversOwn(t, i, body);
    RemovedMultiset(t.pending, i);
    StepInv(t, Reply(r.tag, body));
  }

  /** Replies to the pending requests may come in any order: each body reaches the request whose tag it
      carried, and when all have come none is left. */
  lemma {:induction false} AnyOrder(s: State, order: seq<Request>, bodies: seq<seq<byte>>)
    requires Inv(s) && Windowed(s)
    requires multiset(order) == multiset(s.pending) && |order| == |bodies|
    ensures var t := Run(s, Replies(order, bodies));
      t.pending == [] && t.delivered == s.delivered + Zip(order, bodies) && t.failed == s.failed
    decreases |order|
  {
    hide Windowed, Step, Pick, TagAfter;
    if order == [] {
      assert |multiset(s.pending)| == |multiset(order)| == 0;
    } else {
      var r, body := order[0], bodies[0];
      HeadOfPermutation(order, s.pending);
      DeliverNext(s, r, body);
      var t := Step(s, Reply(r.tag, body));
      assert multiset(order[1..]) == multiset(t.pending);
      AnyOrder(t, order[1..], bodies[1..]);
      RepliesUnfold(s, order, bodies);
    }
  }

  lemma HeadOfPermutation(order: seq<Request>, pending: seq<Request>)
    requires order != [] && multiset(order) == multiset(pending)
    ensures order[0] in pending && multiset(order[1..]) == multiset(order) - multiset{order[0]}
  {
    assert order == [order[0]] + order[1..];
    assert order[0] in multiset(pending);
  }

  lemma RepliesUnfold(s: State, order: seq<Request>, bodies: seq<seq<byte>>)
    requires Counted(s) && order != [] && |order| == |bodies|
    ensures Run(s, Replies(order, bodies))
         == Run(Step(s, Reply(order[0].tag, bodies[0])), Replies(order[1..], bodies[1..]))
    ensures Zip(order, bodies) == [Answered(order[0], bodies[0])] + Zip(order[1..], bodies[1..])
  {
    assert Replies(order, bodies)[1..] == Replies(order[1..], bodies[1..]);
  }

  // ----- what goes wrong outside the window

  lemma TagsEqualIff(base: u16, a: nat, b: nat)
    requires a <= b
    ensures TagAfter(base, a) == TagAfter(base, b) <==> (b - a) % 0x1_0000 == 0
  {
  }

  /** The answer to a pending request reaches it if and only if no request that is still pending was sent a multiple
      of 65536 sends earlier. */
  lemma AnswerReachesIff(s: State, j: nat, body: seq<byte>)
    requires Inv(s) && j < |s.pending|
    ensures DeliversOwn(s, j, body) <==>
      forall i {:trigger s.pending[i]} :: 0 <= i < j ==> (s.pending[j].id - s.pending[i].id) % 0x1_0000 != 0
  {
    hide TagAfter;
    forall i | 0 <= i < j
      ensures s.pending[i].tag == s.pending[j].tag <==> (s.pending[j].id - s.pending[i].id) % 0x1_0000 == 0
    {
      TagsEqualIff(s.base, s.pending[i].id, s.pending[j].id);
    }
    var k := Pick(s, s.pending[j].tag).value;
    var t := Step(s, Reply(s.pending[j].tag, body));
    assert t.delivered[|s.delivered|] == Answered(s.pending[k], body);
    assert k <= j && (k < j ==> s.pending[k].id < s.pending[j].id);
  }

  /** One request that is never answered while `n` others come and are answered. */
  function Straggler(n: nat): seq<Event> {
    if n == 0 then [Send] else Straggler(n - 1) + [Send, Reply(TagAfter(0, n), [])]
  }

  /** A run of one more event. */
  lemma {:induction false} RunSnoc(s: State, events: seq<Event>, e: Event)
    requires Counted(s)
    ensures Run(s, events + [e]) == Step(Run(s, events), e)
    decreases |events|
  {
    hide Step;
    var q := events + [e];
    if events == [] {
      assert q[1..] == [];
    } else {
      RunSnoc(Step(s, events[0]), events[1..], e);
      assert q[1..] == events[1..] + [e];
    }
  }

  /** The straggler alone is pending, and `n` requests have been sent. */
  ghost predicate Alone(s: State, n: nat) {
    s.pending == [Request(0, 0)] && s.sent == n && s.base == 0 && s.depth == 0 && Counted(s)
  }

  /** The next request is sent and, unless it has the straggler's tag, answered. */
  lemma SentAndAnswered(s: State, n: nat)
    requires Alone(s, n) && 0 < n < 0x1_0000
    ensures Alone(Step(Step(s, Send), Reply(TagAfter(0, n), [])), n + 1)
  {
    hide FirstWith;
    SendStep(s);
    var u := Step(s, Send);
    assert u.pending == [Request(0, 0), Request(n, n)];
    assert u.pending[0].tag != n && u.pending[1].tag == n;
    assert Pick(u, n) == Some(1);
    assert Without(u.pending, 1) == [Request(0, 0)];
  }

  lemma {:induction false} StragglerStays(n: nat)
    requires n < 0x1_0000
    ensures Alone(Run(Init(0, 0), Straggler(n)), n + 1)
  {
    hide Run, Step, TagAfter, Alone;
    if n > 0 {
      StragglerStays(n - 1);
      var before, answer := Straggler(n - 1), Reply(TagAfter(0, n), []);
      RunSnoc(Init(0, 0), before, Send);
      RunSnoc(Init(0, 0), before + [Send], answer);
      assert before + [Send, answer] == before + [Send] + [answer];
      SentAndAnswered(Run(Init(0, 0), before), n);
    } else {
      FirstSent();
    }
  }

  lemma FirstSent()
    ensures Alone(Run(Init(0, 0), [Send]), 1)
  {
    assert [Send][1..] == [];
  }

  /** A run the code can have: request 0 stays pending while `n` later ones are answered, and one more is sent. The
      answer to that one is given to request 0 if and only if it is the 65536th after it, so the window is as
      wide as it can be. */
  lemma StaleTagMisdelivers(n: nat, body: seq<byte>)
    requires n < 0x1_0000
    ensures var s := Run(Init(0, 0), Straggler(n) + [Send]);
      && s.pending == [Request(0, 0), Request(n + 1, TagAfter(0, n + 1))]
      && (Step(s, Reply(s.pending[1].tag, body)).delivered == s.delivered + [Answered(Request(0, 0), body)]
          <==> n + 1 == 0x1_0000)
  {
    hide Run, Step, Straggler;
    StragglerStays(n);
    RunSnoc(Init(0, 0), Straggler(n), Send);
    SendStep(Run(Init(0, 0), Straggler(n)));
    FirstOfTwo(Run(Init(0, 0), Straggler(n) + [Send]), n + 1, body);
  }

  /** With two pending requests the answer to the later one goes to the straggler exactly if the tags are the same. */
  lemma FirstOfTwo(s: State, m: nat, body: seq<byte>)
    requires Counted(s) && m > 0 && s.pending == [Request(0, 0), Request(m, TagAfter(0, m))]
    ensures Step(s, Reply(s.pending[1].tag, body)).delivered == s.delivered + [Answered(Request(0, 0), body)]
       <==> m % 0x1_0000 == 0
  {
    hide FirstWith;
    var tag := s.pending[1].tag;
    assert s.pending[0].tag == 0 && tag == m % 0x1_0000;
    var i := Pick(s, tag).value;
    var done := Step(s, Reply(tag, body)).delivered;
    assert done[|s.delivered|] == Answered(s.pending[i], body);
  }

  // ----- the two paths

  /** A reply that matches nothing pending changes nothing. */
  lemma UnmatchedChangesNothing(s: State, tag: u16, body: seq<byte>)
    requires Inv(s) && (s.depth != 1 || s.count != 1)
    ensures Step(s, Reply(tag, body)) == s <==> forall i :: 0 <= i < |s.pending| ==> s.pending[i].tag != tag
  {
  }

  /** With one transaction on an untagged bus the tag is not looked at: the reply is delivered to it, and that
      is the request it answers if and only if the tags agree. */
  lemma UntaggedTakesAny(s: State, tag: u16, body: seq<byte>)
    requires Inv(s) && s.depth == 1 && s.count == 1
    ensures var t := Step(s, Reply(tag, body));
      && t.pending == [] && t.delivered == s.delivered + [Answered(s.pending[0], body)]
      && (t == Step(s.(depth := 0), Reply(tag, body)).(depth := 1) <==> s.pending[0].tag == tag)
  {
  }
}
