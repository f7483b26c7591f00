/** Framing of sdk/acq_modbus/modbus_tcp.c: send_frame puts the MBAP header before a payload
    (MODBUS Messaging on TCP/IP Implementation Guide V1.0b, section 3.1.3) and recv_frame finds the
    frames again in the byte stream. */
module MbapFraming {
  import opened Basics

  type u16 = x: int | 0 <= x < 0x1_0000

  const TCP_HEADER_SIZE := 6
  const MAX_RESPONSE_LENGTH := 254
  const BUFFER_SIZE := 262 // header, payload and room for the RTU checksum

  const RCVD_FRAME_INVALID := -16
  const TOO_FEW_BYTES_SENT := -18
  const ERR_TIMEOUT := -20
  const ERR_BUS_DOWN := -21
  const SOCKET_FAILURE := -111

  // ----- the format

  function Header(tag: u16, length: nat): seq<byte> {
    [tag / 256, tag % 256, 0, 0, length / 256 % 256, length % 256]
  }

  /** Two bytes, most significant first. */
  function Word(hi: byte, lo: byte): u16 {
    256 * (hi as int) + lo
  }

  function Frame(tag: u16, payload: seq<byte>): seq<byte> {
    Header(tag, |payload|) + payload
  }

  /** The two low bytes of a number. */
  lemma TwoBytes(x: nat)
    ensures 256 * (x / 256 % 256) + x % 256 == x % 0x1_0000
    ensures x < 0x1_0000 ==> x / 256 < 256 && 256 * (x / 256) + x % 256 == x
  {
  }

  // ----- sending

  /** The socket a bus writes to and its share of the bus state. */
  class Sender {
    const master: bool
    var seqNum: u16
    var wire: seq<byte> // everything handed to the network so far
    var valid: bool // false once modbus_invalidate has been called

    constructor (master: bool)
      ensures this.master == master && seqNum == 0 && wire == [] && valid
    {
      this.master, seqNum, wire, valid := master, 0, [], true;
    }
  }

  /** Lines 57-69: the header goes into the six bytes before the payload. */
  method PutHeader(bus: Sender, buf: array<byte>, length: nat)
    requires TCP_HEADER_SIZE + length <= buf.Length
    modifies bus`seqNum, buf
    ensures var tag: u16 := if bus.master then old(bus.seqNum) else Word(old(buf[0]), old(buf[1]));
      buf[..6] == Header(tag, length) && 256 * (buf[0] as int) + buf[1] == tag
    ensures buf[2] == 0 && buf[3] == 0 && 256 * (buf[4] as int) + buf[5] == length % 0x1_0000
    ensures buf[6..] == old(buf[6..])
    ensures bus.seqNum == if bus.master then (old(bus.seqNum) + 1) % 0x1_0000 else old(bus.seqNum)
  {
    TwoBytes(length);
    TwoBytes(Word(buf[0], buf[1]));
    ghost var tag: u16 := if bus.master then bus.seqNum else Word(buf[0], buf[1]);
    if bus.master {
      TwoBytes(bus.seqNum);
      buf[0] := bus.seqNum / 256;
      buf[1] := bus.seqNum % 256;
      bus.seqNum := (bus.seqNum + 1) % 0x1_0000;
    }
    assert buf[0] == tag / 256 && buf[1] == tag % 256;
    buf[2] := 0;
    buf[3] := 0;
    buf[4] := length / 256 % 256;
    buf[5] := length % 256;
    assert buf[..6] == Header(tag, length);
  }

  /** send_frame. The payload lies at `buf[6..]`; on a slave bus the caller has put the tag into `buf[..2]`.
      `accepted` is what send() returned, `finished` the shutdown flag read after it. */
  method SendFrame(bus: Sender, buf: array<byte>, length: nat, accepted: int, finished: bool) returns (r: int)
    requires TCP_HEADER_SIZE + length <= buf.Length
    requires -1 <= accepted <= TCP_HEADER_SIZE + length
    modifies bus, buf
    ensures var tag: u16 := if bus.master then old(bus.seqNum) else Word(old(buf[0]), old(buf[1]));
      && buf[..6 + length] == Header(tag, length) + old(buf[6..6 + length])
      && 256 * (buf[0] as int) + buf[1] == tag
      && buf[6 + length..] == old(buf[6 + length..])
    ensures buf[2] == 0 && buf[3] == 0 && 256 * (buf[4] as int) + buf[5] == length % 0x1_0000
    ensures bus.seqNum == if bus.master then (old(bus.seqNum) + 1) % 0x1_0000 else old(bus.seqNum)
    ensures bus.wire == old(bus.wire) + if accepted > 0 then buf[..accepted] else []
    ensures r == if finished then -21 else if accepted >= 6 then accepted - 6 else if accepted > 0 then -18 else -111
    ensures bus.valid == (old(bus.valid) && r != -111)
  {
    hide Header, Word;
    ghost var before := buf[6..];
    PutHeader(bus, buf, length);
    assert buf[6..6 + length] == before[..length] && buf[6 + length..] == before[length..];
    assert buf[..6 + length] == buf[..6] + buf[6..6 + length];
    var bytesSent := accepted;
    if accepted > 0 {
      bus.wire := bus.wire + buf[..accepted];
    }
    if finished {
      bytesSent := ERR_BUS_DOWN;
    } else if bytesSent >= 6 {
      bytesSent := bytesSent - 6;
    } else if bytesSent > 0 {
      bytesSent := TOO_FEW_BYTES_SENT;
    } else {
      bytesSent := SOCKET_FAILURE;
    }
    if bytesSent == SOCKET_FAILURE {
      bus.valid := false;
    }
    r := bytesSent;
  }

  // ----- receiving: what the socket delivers

  /** `Gap` is a silence longer than the frame break timeout, `Hangup` a recv() that returns 0 or fails. */
  datatype Event = Byte(b: byte) | Gap | Hangup

  /** The receiving end. `input` is what will arrive; when it is used up there is silence.
      `shutdown` is the number of reads of `finished` that still see 0; once it is set it stays set. */
  class Receiver {
    var input: seq<Event>
    var shutdown: Option<nat>
    var valid: bool
    var timedOut: bool // what the last wait for a frame came to

    constructor (input: seq<Event>, shutdown: Option<nat>)
      ensures this.input == input && this.shutdown == shutdown && valid && !timedOut
    {
      this.input, this.shutdown, valid, timedOut := input, shutdown, true, false;
    }

    /** `bus->finished != 0`, read once more. */
    method Finished() returns (f: bool)
      modifies this`shutdown
      ensures old(shutdown) == None ==> !f && shutdown == None
      ensures old(shutdown) != None ==> shutdown != None && (f <==> old(shutdown).value == 0)
      ensures f ==> shutdown == Some(0)
    {
      f := shutdown == Some(0);
      if shutdown.Some? && shutdown.value > 0 {
        shutdown := Some(shutdown.value - 1);
      }
    }

    /** The first select(). With a timeout of 0 it waits for as long as it takes, so silence ends; with
        another timeout it may give up on a silence and return 0. -1 stands for a failed select(). */
    method AwaitFirst(timeout: nat) returns (avail: int)
      modifies this`input, this`timedOut
      ensures timedOut <==> avail == 0
      ensures avail == 0 ==> timeout > 0 && input == old(input)
      ensures avail != 0 ==> input == Awake(old(input)) || (avail == -1 && input == old(input))
      ensures timeout == 0 && Awake(old(input)) != [] ==> input == Awake(old(input))
    {
      var quiet := input == [] || input[0].Gap?;
      var giveUp: bool := *;
      timedOut := timeout > 0 && quiet && giveUp;
      if timedOut {
        return 0;
      }
      if Awake(input) == [] {
        return -1;
      }
      input := Awake(input);
      return 1;
    }
  }

  /** The input without leading silence. */
  function Awake(input: seq<Event>): seq<Event> {
    if input != [] && input[0].Gap? then Awake(input[1..]) else input
  }

  /** How many bytes arrive without a break. */
  function Burst(input: seq<Event>): (n: nat)
    ensures n <= |input| && forall i :: 0 <= i < n ==> input[i].Byte?
    ensures n < |input| ==> !input[n].Byte?
  {
    if input == [] || !input[0].Byte? then 0 else 1 + Burst(input[1..])
  }

  /** The payload length the header announces. */
  function Announced(input: seq<Event>): u16
    requires Burst(input) >= 6
  {
    Word(input[4].b, input[5].b)
  }

  /** The number of bytes at which recv_frame stops by itself, given the first six: the announced length
      and the header, or 260 when the announced length is over 254. */
  function StopAt(input: seq<Event>): nat
    requires Burst(input) >= 6
  {
    if Announced(input) <= MAX_RESPONSE_LENGTH then 6 + Announced(input) else MAX_RESPONSE_LENGTH + 6
  }

  /** How many bytes one call reads when nothing shuts it down. */
  function Taken(input: seq<Event>): (n: nat)
    ensures n <= Burst(input) && n <= 260
  {
    var burst := Burst(input);
    if burst < 6 || burst < StopAt(input) then burst else StopAt(input)
  }

  /** What one call returns then. */
  function Outcome(input: seq<Event>): int {
    var n := Taken(input);
    if !(n >= 6 && n == StopAt(input)) && n < |input| && input[n].Hangup? then SOCKET_FAILURE
    else if n >= 6 then n - 6
    else if n > 0 then RCVD_FRAME_INVALID
    else 0
  }

  /** `n` bytes have been read; from the sixth on the awaited length is known, modulo its 16 bits. */
  ghost predicate Reading(input: seq<Event>, n: nat, awaited: u16) {
    n <= Taken(input) && awaited == if n < 6 then 0 else (Announced(input) + 6) % 0x1_0000
  }

  ghost predicate Complete(input: seq<Event>, n: nat)
    requires n <= Burst(input)
  {
    n >= 6 && n == StopAt(input)
  }

  ghost predicate Quiet(input: seq<Event>, n: nat) {
    n >= |input| || input[n].Gap?
  }

  /** The buffer holds the first `n` bytes that arrived. */
  ghost predicate Holds(buf: seq<byte>, input: seq<Event>, n: nat)
    requires n <= |buf| && n <= Burst(input)
  {
    forall i :: 0 <= i < n ==> buf[i] == input[i].b
  }

  /** One more byte: it belongs to the burst, and the 16-bit comparison detects exactly the end of a frame
      whose announced length is legal; a wrapped sum is below 6 and never matches. */
  lemma ByteStep(input: seq<Event>, n: nat)
    requires n < 260 && n < |input| && input[n].Byte? && n <= Taken(input) && !Complete(input, n)
    ensures n + 1 <= Taken(input) && (Complete(input, n + 1) ==> n + 1 == Taken(input))
    ensures n + 1 >= 6 && n + 1 < 260 ==> (n + 1 == (Announced(input) + 6) % 0x1_0000 <==> Complete(input, n + 1))
    ensures n + 1 == 260 ==> Complete(input, n + 1)
  {
    hide Burst, Announced;
    assert Burst(input) > n;
  }

  predicate Legal(r: int) {
    0 <= r <= 254 || r == -16 || r == -20 || r == -21 || r == -111
  }

  /** The other side hangs up before a frame is complete. */
  ghost predicate HungUp(input: seq<Event>) {
    var n := Burst(input);
    && n < |input| && input[n].Hangup? && n < 260
    && (n >= 6 ==> n < 6 + 256 * (input[4].b as int) + input[5].b)
  }

  lemma HungUpFails(input: seq<Event>)
    requires HungUp(input)
    ensures Outcome(input) == -111
  {
  }

  /** The three 16-bit steps that compute the awaited length. */
  lemma AwaitedLength(hi: byte, lo: byte)
    ensures (((hi as int) * 256 % 0x1_0000 + lo) % 0x1_0000 + 6) % 0x1_0000 == (Word(hi, lo) + 6) % 0x1_0000
  {
  }

  /** The part of the loop that stores a byte, awaits a length and decides whether to go on. */
  method AcceptByte(rx: array<byte>, n: nat, awaited: u16, b: byte, ghost input: seq<Event>)
      returns (n': int, awaited': u16, more: bool)
    requires rx.Length == BUFFER_SIZE && n < MAX_RESPONSE_LENGTH + 6
    requires n < |input| && input[n] == Byte(b) && Reading(input, n, awaited) && !Complete(input, n)
    requires Holds(rx[..], input, n)
    modifies rx
    ensures n' == n + 1 && Reading(input, n', awaited') && Holds(rx[..], input, n')
    ensures forall i :: 260 <= i < rx.Length ==> rx[i] == old(rx[i])
    ensures if more then n' < 260 ==> !Complete(input, n') else Complete(input, n') && n' == Taken(input)
  {
    hide Taken, StopAt;
    ByteStep(input, n);
    rx[n] := b;
    n', awaited', more := n + 1, awaited, true;
    if n' == 6 {
      awaited' := rx[4];
      awaited' := awaited' * 256 % 0x1_0000;
      awaited' := (awaited' + rx[5]) % 0x1_0000;
      awaited' := (awaited' + 6) % 0x1_0000;
      assert Announced(input) == Word(rx[4], rx[5]);
      AwaitedLength(rx[4], rx[5]);
    }
    if n' == awaited' {
      more := false;
    }
    assert n' <= MAX_RESPONSE_LENGTH + 6; // so the next branch is never taken
    if n' > MAX_RESPONSE_LENGTH + 6 {
      n', more := RCVD_FRAME_INVALID, false;
    }
  }

  /** What is known in the receive loop: `n` is bytes_received, `c` how much of the input has been used up, `first` and
      `now` the shutdown count at the start and now. */
  ghost predicate Progress(start: seq<Event>, c: int, n: int, awaited: u16, available: bool, timedOut: bool,
                           first: Option<nat>, now: Option<nat>, buf: seq<byte>) {
    && 0 <= c <= |start| && |buf| == BUFFER_SIZE
    && (first == None ==> now == None)
    && (first == Some(0) ==> n == -21 && c == 0)
    && (timedOut ==> !available && c == 0 && n < 0)
    && (timedOut && first == None ==> n == -20)
    && (n < 0 ==>
          || (n == -21 && now == Some(0))
          || (n == -20 && timedOut)
          || (n == -111 && !available && Outcome(start) == -111 && c == Taken(start) + 1 && start[c - 1].Hangup?))
    && (n >= 0 ==> n <= 260 && Reading(start, n, awaited) && Holds(buf, start, n))
    && (n >= 0 && available ==> c == n && (n < 260 ==> !Complete(start, n)))
    && (n >= 0 && !available ==>
          n == Taken(start) && if Complete(start, n) then c == n else Quiet(start, n))
  }

  /** The rest of one turn of the receive loop, from select() on. */
  method ReadStep(bus: Receiver, rx: array<byte>, n: nat, awaited: u16,
                  ghost start: seq<Event>, ghost c: nat, ghost first: Option<nat>)
      returns (n': int, awaited': u16, available: bool, ghost c': nat)
    requires rx.Length == BUFFER_SIZE && n < 260 && c <= |start| && bus.input == start[c..]
    requires Progress(start, c, n, awaited, true, bus.timedOut, first, bus.shutdown, rx[..])
    modifies bus`input, bus`shutdown, rx
    ensures c <= c' <= |start| && bus.input == start[c'..] && (c' > c || !available)
    ensures Progress(start, c', n', awaited', available, bus.timedOut, first, bus.shutdown, rx[..])
    ensures forall i :: 260 <= i < rx.Length ==> rx[i] == old(rx[i])
  {
    hide Taken, StopAt, Outcome;
    n', awaited', available, c' := n, awaited, true, c;
    if bus.input == [] || bus.input[0].Gap? {
      available := false;
      SilenceEnds(start, n);
      if bus.input != [] { bus.input := bus.input[1..]; c' := c + 1; }
    } else {
      var event := bus.input[0];
      bus.input := bus.input[1..];
      c' := c + 1;
      var finished := bus.Finished();
      if finished {
        n' := ERR_BUS_DOWN;
      } else if event.Hangup? {
        HangupEnds(start, n);
        n' := SOCKET_FAILURE;
        available := false;
      } else {
        n', awaited', available := AcceptByte(rx, n, awaited, event.b, start);
      }
    }
  }

  lemma SilenceEnds(start: seq<Event>, n: nat)
    requires n <= Taken(start) && !Complete(start, n) && Quiet(start, n)
    ensures n == Taken(start)
  {
  }

  lemma HangupEnds(start: seq<Event>, n: nat)
    requires n <= Taken(start) && !Complete(start, n) && n < |start| && start[n].Hangup?
    ensures n == Taken(start) && Outcome(start) == -111
  {
  }

  /** What is known after the loop. */
  lemma LoopEnds(start: seq<Event>, c: int, n: int, awaited: u16, available: bool, timedOut: bool,
                 first: Option<nat>, now: Option<nat>, buf: seq<byte>)
    requires Progress(start, c, n, awaited, available, timedOut, first, now, buf)
    requires !(available && n < 260) || now == Some(0)
    ensures var r := Result(n);
      && Legal(r) && |buf| == BUFFER_SIZE && 0 <= c <= |start|
      && (first == None ==> now == None && (r == -20 <==> timedOut))
      && (first == Some(0) ==> r == -21 && c == 0) && (timedOut ==> c == 0)
      && (r == -20 ==> timedOut) && (r == -21 ==> now == Some(0))
      && (r == -111 ==> Taken(start) < |start| && start[Taken(start)].Hangup? && c == Taken(start) + 1)
      && (r > 0 ==> 6 + r <= Burst(start) && Holds(buf, start, 6 + r))
    ensures var r := Result(n); first == None && r != -20 ==>
      && r == Outcome(start) && (r != -111 ==> Holds(buf, start, Taken(start)))
      && (Complete(start, Taken(start)) ==> c == Taken(start))
  {
    hide Burst, Announced;
  }

  /** The byte count without the header, or an error. */
  function Result(n: int): int {
    if n >= 6 then n - 6 else if n > 0 then RCVD_FRAME_INVALID else n
  }

  /** recv_frame. `rx` is the buffer from the header on. */
  method RecvFrame(bus: Receiver, rx: array<byte>, timeout: nat) returns (r: int, ghost start: seq<Event>)
    requires rx.Length == BUFFER_SIZE
    modifies bus, rx
    ensures Legal(r) && (timeout == 0 ==> r != -20)
    ensures forall i :: 260 <= i < rx.Length ==> rx[i] == old(rx[i])
    ensures bus.valid == (old(bus.valid) && r != -111)
    ensures start == old(bus.input) || start == Awake(old(bus.input))
    ensures timeout == 0 && Awake(old(bus.input)) != [] ==> start == Awake(old(bus.input))
    ensures exists c :: 0 <= c <= |start| && bus.input == start[c..]
    ensures bus.timedOut ==> timeout > 0 && bus.input == start == old(bus.input)
    ensures old(bus.shutdown) == None ==> (r == -20 <==> bus.timedOut)
    ensures old(bus.shutdown) == Some(0) ==> r == -21 && bus.input == start
    ensures r == -21 ==> bus.shutdown == Some(0)
    ensures r == -111 ==>
      Taken(start) < |start| && start[Taken(start)].Hangup? && bus.input == start[Taken(start) + 1..]
    ensures r > 0 ==> 6 + r <= Burst(start) && Holds(rx[..], start, 6 + r)
    ensures old(bus.shutdown) == None && r != -20 ==>
      && r == Outcome(start) && bus.shutdown == None
      && (r != -111 ==> Holds(rx[..], start, Taken(start)))
      && (Taken(start) >= 6 && Taken(start) == StopAt(start) ==> bus.input == start[Taken(start)..])
    ensures old(bus.shutdown) == None && !bus.timedOut && HungUp(start) ==> r == -111 && !bus.valid
  {
    hide Progress, Legal, Outcome, Taken, Burst, StopAt, Holds, HungUp, Awake;
    var dataAvail := bus.AwaitFirst(timeout);
    start := bus.input;
    var available := dataAvail != 0;
    var bytesReceived := 0;
    var bytesAwaited: u16 := 0;
    ghost var c, first := 0, bus.shutdown;

    var finished := bus.Finished();
    if finished {
      bytesReceived := ERR_BUS_DOWN;
    } else if !available {
      bytesReceived := ERR_TIMEOUT;
    }
    LoopStarts(start, bytesReceived, available, bus.timedOut, first, bus.shutdown, rx[..]);
    while true
      invariant 0 <= c <= |start| && bus.input == start[c..] && bus.valid == old(bus.valid)
      invariant bus.timedOut ==> start == old(bus.input) && timeout > 0 && !available
      invariant forall i :: 260 <= i < rx.Length ==> rx[i] == old(rx[i])
      invariant Progress(start, c, bytesReceived, bytesAwaited, available, bus.timedOut, first, bus.shutdown, rx[..])
      decreases |start| - c, available
    {
      if !(available && bytesReceived < MAX_RESPONSE_LENGTH + 6) {
        break;
      }
      ghost var was := bus.shutdown;
      finished := bus.Finished();
      FlagRead(start, c, bytesReceived, bytesAwaited, available, bus.timedOut, first, was, bus.shutdown, rx[..]);
      if finished {
        break;
      }
      DownIsSeen(start, c, bytesReceived, bytesAwaited, available, bus.timedOut, first, was, rx[..]);
      bytesReceived, bytesAwaited, available, c := ReadStep(bus, rx, bytesReceived, bytesAwaited, start, c, first);
    }
    LoopEnds(start, c, bytesReceived, bytesAwaited, available, bus.timedOut, first, bus.shutdown, rx[..]);
    if bytesReceived >= 6 {
      bytesReceived := bytesReceived - 6;
    } else if bytesReceived > 0 {
      bytesReceived := RCVD_FRAME_INVALID;
    }
    if bytesReceived == SOCKET_FAILURE {
      bus.valid := false;
    }
    r := bytesReceived;
    if HungUp(start) {
      HungUpFails(start);
    }
  }

  lemma LoopStarts(start: seq<Event>, n: int, available: bool, timedOut: bool,
                   first: Option<nat>, now: Option<nat>, buf: seq<byte>)
    requires |buf| == BUFFER_SIZE && (first == None ==> now == None) && (available <==> !timedOut)
    requires n == if first == Some(0) then -21 else if timedOut then -20 else 0
    requires first == Some(0) ==> now == Some(0)
    ensures Progress(start, 0, n, 0, available, timedOut, first, now, buf)
  {
  }

  /** Reading the flag changes nothing else, and once it is set it stays. */
  lemma FlagRead(start: seq<Event>, c: int, n: int, awaited: u16, available: bool, timedOut: bool,
                 first: Option<nat>, was: Option<nat>, now: Option<nat>, buf: seq<byte>)
    requires Progress(start, c, n, awaited, available, timedOut, first, was, buf)
    requires (was == None ==> now == None) && (was == Some(0) ==> now == Some(0))
    ensures Progress(start, c, n, awaited, available, timedOut, first, now, buf)
  {
  }

  /** While the flag is not set and there may be more, no error has been found. */
  lemma DownIsSeen(start: seq<Event>, c: int, n: int, awaited: u16, available: bool, timedOut: bool,
                   first: Option<nat>, was: Option<nat>, buf: seq<byte>)
    requires Progress(start, c, n, awaited, available, timedOut, first, was, buf) && available && was != Some(0)
    ensures n >= 0
  {
  }

  // ----- round trip

  datatype Msg = Msg(tag: u16, payload: seq<byte>)

  /** Bytes arriving one after the other. */
  function Arrival(bytes: seq<byte>): seq<Event> {
    seq(|bytes|, i requires 0 <= i < |bytes| => Byte(bytes[i]))
  }

  lemma BurstAtLeast(input: seq<Event>, n: nat)
    requires n <= |input| && forall i :: 0 <= i < n ==> input[i].Byte?
    ensures Burst(input) >= n
  {
  }

  lemma BurstExactly(input: seq<Event>, n: nat)
    requires n < |input| && !input[n].Byte? && forall i :: 0 <= i < n ==> input[i].Byte?
    ensures Burst(input) == n
  {
  }

  /** A whole frame at the front of the input arrives without a break, with its length in the header. */
  lemma FrameArrives(m: Msg, rest: seq<Event>)
    ensures var input := Arrival(Frame(m.tag, m.payload)) + rest;
      Burst(input) >= 6 + |m.payload| && Announced(input) == |m.payload| % 0x1_0000
  {
    var f := Frame(m.tag, m.payload);
    var input := Arrival(f) + rest;
    assert |f| == 6 + |m.payload|;
    assert forall i :: 0 <= i < |f| ==> input[i] == Byte(f[i]);
    BurstAtLeast(input, |f|);
    assert input[4] == Byte(f[4]) && input[5] == Byte(f[5]);
  }

  /** A frame followed by anything is read as exactly itself if and only if its payload is at most 254 bytes. */
  lemma FrameReadIff(m: Msg, rest: seq<Event>)
    ensures var input := Arrival(Frame(m.tag, m.payload)) + rest;
      Outcome(input) == |m.payload| && Taken(input) == 6 + |m.payload| <==> |m.payload| <= 254
    ensures var input := Arrival(Frame(m.tag, m.payload)) + rest;
      |m.payload| <= 254 ==> Complete(input, Taken(input))
  {
    hide Burst, Announced, Arrival, Frame;
    FrameArrives(m, rest);
  }

  /** A silence inside a frame cuts it short: what is read is never taken for the whole frame, though from the
      sixth byte on it is reported as a shorter one. */
  lemma GapTruncates(m: Msg, n: nat, rest: seq<Event>)
    requires |m.payload| <= 254 && 0 < n < 6 + |m.payload|
    ensures Outcome(Arrival(Frame(m.tag, m.payload)[..n]) + [Gap] + rest) == if n < 6 then -16 else n - 6
  {
    BrokenFrame(m, n);
    var part := Frame(m.tag, m.payload)[..n];
    ReadExactly(part, [Gap] + rest);
    assert Arrival(part) + [Gap] + rest == Arrival(part) + ([Gap] + rest);
  }

  /** A hang-up inside a frame, or before its first byte, is a socket failure. */
  lemma HangupFails(m: Msg, n: nat, rest: seq<Event>)
    requires |m.payload| <= 254 && n < 6 + |m.payload|
    ensures Outcome(Arrival(Frame(m.tag, m.payload)[..n]) + [Hangup] + rest) == -111
  {
    BrokenFrame(m, n);
    var part := Frame(m.tag, m.payload)[..n];
    ReadExactly(part, [Hangup] + rest);
    assert Arrival(part) + [Hangup] + rest == Arrival(part) + ([Hangup] + rest);
  }

  /** The first bytes of a frame with their number. */
  lemma BrokenFrame(m: Msg, n: nat)
    requires |m.payload| <= 254 && n < 6 + |m.payload|
    ensures var b := Frame(m.tag, m.payload)[..n]; |b| == n && !Sufficient(b)
  {
  }

  /** As many bytes as the header asks for, or 260. */
  predicate Sufficient(bytes: seq<byte>) {
    |bytes| >= 6 && (|bytes| >= 260 || |bytes| >= 6 + 256 * (bytes[4] as int) + bytes[5])
  }

  /** What one call makes of bytes that arrive without a break, whatever they are: once there are enough of them, as
      many as their header says, but no more than 254, and what follows does not matter; before that a hang-up is a
      socket failure, and after a silence there is a shorter frame, an invalid one, or nothing. */
  lemma ReadExactly(bytes: seq<byte>, rest: seq<Event>)
    requires rest == [] || !rest[0].Byte? || Sufficient(bytes)
    ensures var r := Outcome(Arrival(bytes) + rest);
      if Sufficient(bytes) then
        var length := 256 * (bytes[4] as int) + bytes[5]; r == if length <= 254 then length else 254
      else if rest != [] && rest[0].Hangup? then r == -111
      else r == if |bytes| >= 6 then |bytes| - 6 else if |bytes| > 0 then -16 else 0
  {
    var input := Arrival(bytes) + rest;
    assert forall i :: 0 <= i < |bytes| ==> input[i] == Byte(bytes[i]);
    BurstAtLeast(input, |bytes|);
    if rest != [] && !rest[0].Byte? {
      BurstExactly(input, |bytes|);
    }
    if |bytes| >= 6 {
      assert input[4] == Byte(bytes[4]) && input[5] == Byte(bytes[5]);
    }
  }

  function Silence(n: nat): seq<Event> {
    seq(n, _ => Gap)
  }

  /** The frames of `msgs`, each after some silence. */
  function Stream(msgs: seq<Msg>, idle: seq<nat>): seq<Event>
    requires |idle| == |msgs|
  {
    if msgs == [] then []
    else Silence(idle[0]) + (Arrival(Frame(msgs[0].tag, msgs[0].payload)) + Stream(msgs[1..], idle[1..]))
  }

  lemma {:induction false} AwakeAfterSilence(n: nat, rest: seq<Event>)
    requires rest != [] && !rest[0].Gap?
    ensures Awake(Silence(n) + rest) == rest
  {
    if n == 0 {
      assert Silence(n) + rest == rest;
    } else {
      AwakeAfterSilence(n - 1, rest);
      assert (Silence(n) + rest)[1..] == Silence(n - 1) + rest;
    }
  }

  lemma HeldFrame(buf: seq<byte>, m: Msg, rest: seq<Event>)
    requires |buf| == BUFFER_SIZE && |m.payload| <= MAX_RESPONSE_LENGTH
    requires var input := Arrival(Frame(m.tag, m.payload)) + rest;
      6 + |m.payload| <= Burst(input) && Holds(buf, input, 6 + |m.payload|)
    ensures Msg(Word(buf[0], buf[1]), buf[6..6 + |m.payload|]) == m
    ensures buf[..6 + |m.payload|] == Frame(m.tag, m.payload)
  {
  }

  /** One frame, after some silence and before anything else, is read as exactly itself. */
  method ReadOne(bus: Receiver, rx: array<byte>, ghost m: Msg, ghost idle: nat, ghost rest: seq<Event>)
      returns (got: Msg)
    requires rx.Length == BUFFER_SIZE && bus.shutdown == None && |m.payload| <= MAX_RESPONSE_LENGTH
    requires bus.input == Silence(idle) + (Arrival(Frame(m.tag, m.payload)) + rest)
    modifies bus, rx
    ensures got == m && bus.input == rest && bus.shutdown == None && bus.valid == old(bus.valid)
  {
    hide Taken, Outcome, Holds, Burst, StopAt, Announced;
    ghost var input := Arrival(Frame(m.tag, m.payload)) + rest;
    assert input[0] == Byte(m.tag / 256);
    AwakeAfterSilence(idle, input);
    FrameReadIff(m, rest);
    FrameArrives(m, rest);
    var r, start := RecvFrame(bus, rx, 0);
    assert start == input;
    HeldFrame(rx[..], m, rest);
    got := Msg(Word(rx[0], rx[1]), rx[6..6 + r]);
  }

  lemma StreamUnfold(msgs: seq<Msg>, idle: seq<nat>, i: nat, tail: seq<Event>)
    requires i < |msgs| == |idle|
    ensures Stream(msgs[i..], idle[i..]) + tail
         == Silence(idle[i])
            + (Arrival(Frame(msgs[i].tag, msgs[i].payload)) + (Stream(msgs[i + 1..], idle[i + 1..]) + tail))
  {
  }

  lemma StreamEnds(msgs: seq<Msg>, idle: seq<nat>, tail: seq<Event>)
    requires |msgs| == |idle|
    ensures Stream(msgs[|msgs|..], idle[|msgs|..]) + tail == tail
  {
  }

  /** Reading `|msgs|` frames that were written back to back. */
  method ReadBack(bus: Receiver, rx: array<byte>, count: nat,
                  ghost msgs: seq<Msg>, ghost idle: seq<nat>, ghost tail: seq<Event>)
      returns (got: seq<Msg>)
    requires rx.Length == BUFFER_SIZE && bus.shutdown == None
    requires count == |msgs| == |idle|
    requires forall i {:trigger msgs[i]} :: 0 <= i < |msgs| ==> |msgs[i].payload| <= MAX_RESPONSE_LENGTH
    requires bus.input == Stream(msgs, idle) + tail
    modifies bus, rx
    ensures got == msgs && bus.input == tail && bus.shutdown == None && bus.valid == old(bus.valid)
  {
    got := [];
    for i := 0 to count
      invariant got == msgs[..i] && bus.shutdown == None && bus.valid == old(bus.valid)
      invariant bus.input == Stream(msgs[i..], idle[i..]) + tail
    {
      StreamUnfold(msgs, idle, i, tail);
      var msg := ReadOne(bus, rx, msgs[i], idle[i], Stream(msgs[i + 1..], idle[i + 1..]) + tail);
      got := got + [msg];
    }
  }

  /** Frames back to back. */
  function Wire(msgs: seq<Msg>): seq<byte> {
    if msgs == [] then [] else Frame(msgs[0].tag, msgs[0].payload) + Wire(msgs[1..])
  }

  lemma {:induction false} WireSnoc(msgs: seq<Msg>, m: Msg)
    ensures Wire(msgs + [m]) == Wire(msgs) + Frame(m.tag, m.payload)
  {
    hide Frame;
    var q := msgs + [m];
    if msgs == [] {
      assert q[1..] == [];
    } else {
      WireSnoc(msgs[1..], m);
      assert q[0] == msgs[0] && q[1..] == msgs[1..] + [m];
    }
  }

  /** What the standard makes of a stream of bytes: transaction identifier, protocol identifier 0, length, and as many
      bytes, message after message; nothing if they do not come out even. */
  function Decode(bytes: seq<byte>): Option<seq<Msg>> {
    if bytes == [] then Some([])
    else if |bytes| < 6 || bytes[2] != 0 || bytes[3] != 0 then None
    else
      var length := 256 * (bytes[4] as int) + bytes[5];
      if |bytes| < 6 + length then None
      else
        match Decode(bytes[6 + length..])
        case None => None
        case Some(msgs) => Some([Msg(256 * (bytes[0] as int) + bytes[1], bytes[6..6 + length])] + msgs)
  }

  lemma DecodeFrame(m: Msg, bytes: seq<byte>)
    requires |m.payload| < 0x1_0000
    ensures Decode(Frame(m.tag, m.payload) + bytes) ==
      match Decode(bytes) case None => None case Some(msgs) => Some([m] + msgs)
  {
    var all := Frame(m.tag, m.payload) + bytes;
    assert all[6..6 + |m.payload|] == m.payload && all[6 + |m.payload|..] == bytes;
    assert 256 * (all[4] as int) + all[5] == |m.payload| && 256 * (all[0] as int) + all[1] == m.tag;
  }

  /** Every message written is found in the bytes on the wire by the standard's rules, in order. */
  lemma {:induction false} DecodeWire(msgs: seq<Msg>)
    requires forall i {:trigger msgs[i]} :: 0 <= i < |msgs| ==> |msgs[i].payload| < 0x1_0000
    ensures Decode(Wire(msgs)) == Some(msgs)
  {
    hide Frame, Decode;
    DecodeNothing();
    if msgs != [] {
      DecodeWire(msgs[1..]);
      DecodeFrame(msgs[0], Wire(msgs[1..]));
      assert [msgs[0]] + msgs[1..] == msgs;
    }
  }

  lemma DecodeNothing()
    ensures Decode([]) == Some([])
  {
  }

  /** The sequence number after `n` sends. */
  function TagAfter(seqNum: u16, n: nat): u16 {
    (seqNum + n) % 0x1_0000
  }

  lemma NextTag(seqNum: u16)
    ensures TagAfter(seqNum, 1) == (seqNum + 1) % 0x1_0000
  {
  }

  lemma TagStep(seqNum: u16, n: nat)
    ensures TagAfter(TagAfter(seqNum, n), 1) == TagAfter(seqNum, n + 1)
  {
  }

  /** What a master makes of payloads handed over one after the other: tags count up and wrap at 16 bits. */
  function Tagged(seqNum: u16, payloads: seq<seq<byte>>): seq<Msg> {
    seq(|payloads|, i requires 0 <= i < |payloads| => Msg(TagAfter(seqNum, i), payloads[i]))
  }

  /** A payload put into the buffer and sent whole by a master. */
  method SendPayload(bus: Sender, buf: array<byte>, p: seq<byte>)
    requires bus.master && bus.valid && buf.Length == BUFFER_SIZE && |p| <= MAX_RESPONSE_LENGTH
    modifies bus, buf
    ensures bus.valid && bus.seqNum == TagAfter(old(bus.seqNum), 1)
    ensures bus.wire == old(bus.wire) + Frame(old(bus.seqNum), p)
  {
    forall j | 0 <= j < |p| { buf[6 + j] := p[j]; }
    assert buf[6..6 + |p|] == p;
    var r := SendFrame(bus, buf, |p|, 6 + |p|, false);
  }

  lemma NothingSent(seqNum: u16)
    ensures TagAfter(seqNum, 0) == seqNum && Wire([]) == []
  {
  }

  /** send_frame for each payload in turn, on a master bus whose socket takes everything. */
  method SendAll(bus: Sender, buf: array<byte>, payloads: seq<seq<byte>>)
    requires bus.master && bus.valid && buf.Length == BUFFER_SIZE
    requires forall p :: p in payloads ==> |p| <= MAX_RESPONSE_LENGTH
    modifies bus, buf
    ensures bus.valid && bus.seqNum == TagAfter(old(bus.seqNum), |payloads|)
    ensures bus.wire == old(bus.wire) + Wire(Tagged(old(bus.seqNum), payloads))
  {
    hide TagAfter, Wire, Frame;
    ghost var msgs := Tagged(bus.seqNum, payloads);
    NothingSent(bus.seqNum);
    for i := 0 to |payloads|
      invariant bus.valid && bus.seqNum == TagAfter(old(bus.seqNum), i)
      invariant bus.wire == old(bus.wire) + Wire(msgs[..i])
    {
      assert payloads[i] in payloads;
      TagStep(old(bus.seqNum), i);
      SendPayload(bus, buf, payloads[i]);
      WireSnoc(msgs[..i], msgs[i]);
      assert msgs[..i] + [msgs[i]] == msgs[..i + 1];
    }
    assert msgs[..|payloads|] == msgs;
  }

  /** The bytes of an input, without the silences. */
  function Heard(input: seq<Event>): seq<byte> {
    if input == [] then [] else (if input[0].Byte? then [input[0].b] else []) + Heard(input[1..])
  }

  lemma HeardCons(e: Event, rest: seq<Event>)
    ensures Heard([e] + rest) == (if e.Byte? then [e.b] else []) + Heard(rest) && Heard([]) == []
  {
    assert ([e] + rest)[1..] == rest;
  }

  lemma {:induction false} HeardSplit(a: seq<Event>, b: seq<Event>)
    ensures Heard(a + b) == Heard(a) + Heard(b)
  {
    hide Heard;
    if a == [] {
      HeardCons(Gap, []);
      assert a + b == b;
    } else {
      HeardSplit(a[1..], b);
      HeardCons(a[0], a[1..] + b);
      HeardCons(a[0], a[1..]);
      assert a == [a[0]] + a[1..] && a + b == [a[0]] + (a[1..] + b);
    }
  }

  lemma {:induction false} HeardArrival(bytes: seq<byte>)
    ensures Heard(Arrival(bytes)) == bytes
  {
    if bytes != [] {
      HeardArrival(bytes[1..]);
      assert Arrival(bytes)[1..] == Arrival(bytes[1..]);
    }
  }

  lemma {:induction false} HeardSilence(n: nat)
    ensures Heard(Silence(n)) == []
  {
    if n > 0 {
      HeardSilence(n - 1);
      assert Silence(n)[1..] == Silence(n - 1);
    }
  }

  /** Stream and Wire agree: an input made of whole frames with silences only between them carries exactly
      the bytes the sender wrote. */
  lemma {:induction false} StreamCarriesWire(msgs: seq<Msg>, idle: seq<nat>)
    requires |idle| == |msgs|
    ensures Heard(Stream(msgs, idle)) == Wire(msgs)
  {
    if msgs != [] {
      var frame, rest := Frame(msgs[0].tag, msgs[0].payload), Stream(msgs[1..], idle[1..]);
      StreamCarriesWire(msgs[1..], idle[1..]);
      HeardSplit(Silence(idle[0]), Arrival(frame) + rest);
      HeardSplit(Arrival(frame), rest);
      HeardSilence(idle[0]);
      HeardArrival(frame);
    }
  }
}
