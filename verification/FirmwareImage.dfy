/** Segmentation of a firmware image into CAN frames: the packet loop of IOM_IOBdUpdate
    (sdk/src/IOManager.c) and IO_CAN_TX (sdk/src/IO_CanSocket.c). */
module FirmwareImage {
  import opened Basics

  const CAN_DATA_PACKET_SIZE := 7
  const CAN_BCAST_ID := 15
  const CMD_WRITE_UPGRADE_DOWN_START := 0x12
  const CMD_WRITE_UPGRADE_DOWN_FINISH := 0x13

  /** A frame as the bus carries it: `data` is the `can_dlc` bytes that are sent. */
  datatype CanFrame = CanFrame(id: nat, data: seq<byte>)

  /** `(cmd << CAN_CMD_OFFSET) | CAN_BCAST_ID`. */
  function BroadcastId(cmd: nat): nat {
    cmd * 32 + CAN_BCAST_ID
  }

  /** How many bytes a requested size becomes. */
  function Dlc(dataSize: nat): nat {
    if dataSize <= 8 then dataSize else 8
  }

  /** IO_CAN_TX: which frame a requested size becomes. Without data the frame is filled with zeros. */
  method IoCanTx(canId: nat, pData: array?<byte>, dataSize: nat) returns (frame: CanFrame)
    requires if pData == null then dataSize <= 8 else Dlc(dataSize) <= pData.Length
    ensures frame.id == canId && |frame.data| == if dataSize <= 8 then dataSize else 8
    ensures if pData == null then forall i :: 0 <= i < dataSize ==> frame.data[i] == 0
            else frame.data == pData[..|frame.data|]
  {
    var txBuf: array<byte> := new byte[8](_ => 0);
    var dlc: nat;
    if dataSize <= 8 {
      dlc := dataSize;
      if pData != null {
        forall i | 0 <= i < dataSize { txBuf[i] := pData[i]; }
      }
    } else {
      dlc := 8;
      forall i | 0 <= i < 8 { txBuf[i] := pData[i]; }
    }
    frame := CanFrame(canId, txBuf[..dlc]);
  }

  // ----- sequence numbers

  /** The sequence number after `u8SeqNum`: 255 is followed by 1. */
  function NextSeq(u: byte): byte {
    if u >= 255 then 1 else u + 1
  }

  /** The sequence number of packet `k`: 0..255, then 1..255 over and over. */
  function SeqOf(k: nat): byte {
    if k == 0 then 0 else 1 + (k - 1) % 255
  }

  lemma SeqOfStep(k: nat)
    ensures SeqOf(k + 1) == NextSeq(SeqOf(k))
    ensures SeqOf(k + 1) != SeqOf(k)
  {
  }

  /** Up to 255 the sequence number is the packet's own; from 1 on two packets share one if and only if they are a
      multiple of 255 apart, and no other packet has 0. */
  lemma SeqOfIs(k: nat, j: nat)
    ensures k <= 255 ==> SeqOf(k) == k
    ensures 0 < k <= j ==> (SeqOf(k) == SeqOf(j) <==> (j - k) % 255 == 0)
    ensures SeqOf(k) == 0 <==> k == 0
  {
  }

  // ----- packets

  function PacketCount(size: nat): nat {
    size / CAN_DATA_PACKET_SIZE + if size % CAN_DATA_PACKET_SIZE != 0 then 1 else 0
  }

  /** The number of packets is the size divided by seven, rounded up. */
  lemma PacketCountIsCeiling(size: nat, c: nat)
    ensures c == PacketCount(size) <==> 7 * c - 7 < size <= 7 * c
  {
  }

  /** The file followed by whatever the fixed seven-byte copy of the last packet reads beyond it. */
  ghost predicate Padded(file: seq<byte>, source: seq<byte>) {
    file <= source && |source| == 7 * PacketCount(|file|)
  }

  /** The size handed to IO_CAN_TX for packet `i`: the file size, except in a last packet
      that is not full, where it is the remainder and the sequence byte. */
  function RequestedSize(size: nat, i: nat): nat {
    if i + 1 == PacketCount(size) && size % 7 != 0 then size % 7 + 1 else size
  }

  /** Packet `i` of the download. */
  function Packet(size: nat, source: seq<byte>, i: nat): CanFrame
    requires |source| == 7 * PacketCount(size) && i < PacketCount(size)
  {
    var cmd := if i + 1 == PacketCount(size) then CMD_WRITE_UPGRADE_DOWN_FINISH else CMD_WRITE_UPGRADE_DOWN_START;
    var wanted := RequestedSize(size, i);
    var buf := [SeqOf(i)] + source[7 * i..7 * i + 7];
    CanFrame(BroadcastId(cmd), buf[..Dlc(wanted)])
  }

  /** The file bytes of a frame: all but the leading sequence byte. */
  function Payload(f: CanFrame): seq<byte> {
    if f.data == [] then [] else f.data[1..]
  }

  /** What is on the wire of packet `i`: the identifier with the command of all packets or of the last one, and the byte
      that numbers it. */
  lemma PacketOnWire(size: nat, source: seq<byte>, i: nat)
    requires |source| == 7 * PacketCount(size) && i < PacketCount(size)
    ensures var p := Packet(size, source, i);
      && p.id == (if i + 1 < PacketCount(size) then 0x24F else 0x26F)
      && 1 < |p.data| <= 8 && p.data[0] == SeqOf(i) && (i <= 255 ==> p.data[0] == i)
  {
    hide PacketCount, RequestedSize, Dlc, SeqOf;
    PacketLength(size, i);
    LengthAtLeastTwo(size, i);
    BehindTheFirst(SeqOf(i), source[7 * i..7 * i + 7], Dlc(RequestedSize(size, i)));
    SeqOfIs(i, i);
  }

  lemma LengthAtLeastTwo(size: nat, i: nat)
    requires i < PacketCount(size)
    ensures Dlc(RequestedSize(size, i)) >= 2
  {
  }

  /** The file bytes of the first `n` frames, one after the other. */
  function Payloads(fs: seq<CanFrame>, n: nat): seq<byte>
    requires n <= |fs|
  {
    if n == 0 then [] else Payloads(fs, n - 1) + Payload(fs[n - 1])
  }

  /** All packets of a download, in order. */
  function Packets(size: nat, source: seq<byte>): seq<CanFrame>
    requires |source| == 7 * PacketCount(size)
  {
    seq(PacketCount(size), i requires 0 <= i < PacketCount(size) => Packet(size, source, i))
  }

  /** How many bytes of the file the first `i` packets carry. */
  function Carried(size: nat, i: nat): (b: nat)
    requires i <= PacketCount(size)
    ensures b <= size
  {
    if i < PacketCount(size) then 7 * i else if size == 7 then 6 else size
  }

  /** How long the data of packet `i` is. */
  lemma PacketLength(size: nat, i: nat)
    requires i < PacketCount(size)
    ensures 7 * i + 7 <= 7 * PacketCount(size)
    ensures var d := Dlc(RequestedSize(size, i)); 1 <= d <= 8 && 7 * i + d - 1 == Carried(size, i + 1)
  {
    PacketCountIsCeiling(size, PacketCount(size));
  }

  lemma BehindTheFirst(b: byte, chunk: seq<byte>, d: nat)
    requires 1 <= d <= |chunk| + 1
    ensures ([b] + chunk)[..d][0] == b && ([b] + chunk)[..d][1..] == chunk[..d - 1]
  {
  }

  /** Up to its end the file and the buffer it was loaded into are the same. */
  lemma Inside(file: seq<byte>, source: seq<byte>, a: nat, b: nat)
    requires file <= source && a <= b <= |file|
    ensures source[a..b] == file[a..b]
  {
    assert file == source[..|file|];
  }

  /** What packet `i` carries of the file. */
  lemma PacketPayload(file: seq<byte>, source: seq<byte>, i: nat)
    requires Padded(file, source) && i < PacketCount(|file|)
    ensures var p := Packet(|file|, source, i);
      && p.data != [] && p.data[0] == SeqOf(i)
      && (p.id == BroadcastId(CMD_WRITE_UPGRADE_DOWN_FINISH) <==> i + 1 == PacketCount(|file|))
      && Payload(p) == file[7 * i..Carried(|file|, i + 1)]
  {
    hide PacketCount, SeqOf, Carried, RequestedSize, Dlc;
    var n := |file|;
    var d := Dlc(RequestedSize(n, i));
    PacketLength(n, i);
    var chunk := source[7 * i..7 * i + 7];
    BehindTheFirst(SeqOf(i), chunk, d);
    assert chunk[..d - 1] == source[7 * i..7 * i + d - 1];
    Inside(file, source, 7 * i, 7 * i + d - 1);
  }

  /** Concatenating the data of the first `i` packets gives the file back up to `Carried`. */
  lemma {:induction false} PrefixPayloads(file: seq<byte>, source: seq<byte>, i: nat)
    requires Padded(file, source) && i <= PacketCount(|file|)
    ensures Payloads(Packets(|file|, source), i) == file[..Carried(|file|, i)]
  {
    hide Packet, Payload;
    if i > 0 {
      PrefixPayloads(file, source, i - 1);
      PacketPayload(file, source, i - 1);
      var a, b := Carried(|file|, i - 1), Carried(|file|, i);
      assert file[..a] + file[a..b] == file[..b];
    }
  }

  /** Round trip: the whole file, except that a file of exactly seven bytes loses its last byte. */
  lemma SegmentationRoundTrip(file: seq<byte>, source: seq<byte>)
    requires Padded(file, source)
    ensures Payloads(Packets(|file|, source), PacketCount(|file|)) == file <==> |file| != 7
  {
    PrefixPayloads(file, source, PacketCount(|file|));
    assert file[..|file|] == file;
  }
}
