/** The measurement rings between a monitoring thread and the console (WriteEachACQMeasurementToIEC61850 in
    sdk/src/GISMonitoring.c, WriteEachPDMeasurementToIEC61850 in sdk/src/PDMonitoring.c; the readers are
    CDM_DisplayACQSTS and CDM_DisplayPDSTS in sdk/src/ConsoleManager.c).  CalculateCRC is a parameter. */
module MeasurementRing {
  import opened Basics

  const SIZE_OF_ACQ_DATA_LIST_TO_CU := 100
  const SIZE_OF_PD_DATA_LIST_TO_CU := 60

  /** A record in the ring with the checksum stored behind it. */
  datatype Slot<T> = Slot(body: T, crc: int)

  // ----- positions

  /** The largest number below `w` that is `i` modulo `n`: the record slot `i` holds after `w` writes. */
  function LatestIn(w: nat, n: nat, i: nat): (r: Option<nat>)
    requires n > 0
    ensures r.Some? ==> r.value < w && r.value % n == i && forall k :: r.value < k < w ==> k % n != i
    ensures r == None ==> forall k :: 0 <= k < w ==> k % n != i
  {
    if w == 0 then None
    else if (w - 1) % n == i then Some(w - 1)
    else LatestIn(w - 1, n, i)
  }

  lemma ModuloApart(a: nat, b: nat, n: nat)
    requires a < b < a + n
    ensures a % n != b % n
  {
    var q := b / n - a / n;
    assert b - a == n * q + (b % n - a % n) by {
      assert a == n * (a / n) + a % n && b == n * (b / n) + b % n;
    }
    NoSmallMultiple(n, q);
  }

  lemma ModuloNext(a: nat, n: nat)
    requires n > 0
    ensures (a + 1) % n == if a % n + 1 == n then 0 else a % n + 1
  {
    var q, r := a / n, a % n;
    assert a + 1 == n * q + (r + 1);
    if r + 1 == n {
      assert a + 1 == n * (q + 1);
      Quotient(a + 1, n, q + 1, 0);
    } else {
      Quotient(a + 1, n, q, r + 1);
    }
  }

  lemma Quotient(x: nat, n: nat, q: nat, r: nat)
    requires n > 0 && r < n && x == n * q + r
    ensures x % n == r
  {
    var d := x / n - q;
    assert x == n * (x / n) + x % n;
    assert n * d == r - x % n by { assert n * (x / n) - n * q == n * d; }
    NoSmallMultiple(n, d);
  }

  /** A multiple of `n` that is not 0 is at least `n` away from it. */
  lemma NoSmallMultiple(n: nat, d: int)
    ensures d > 0 ==> n * d >= n
    ensures d < 0 ==> n * d <= 0 - n
    ensures d == 0 ==> n * d == 0
  {
  }

  lemma ModuloRound(a: nat, n: nat)
    requires n > 0
    ensures (a + n) % n == a % n
  {
    assert a + n == n * (a / n + 1) + a % n;
    Quotient(a + n, n, a / n + 1, a % n);
  }

  /** The slot of record `r` still holds record `r` after `w` writes if and only if it has been written and the
      writer is at most one round ahead. */
  lemma HoldsRecordIff(w: nat, n: nat, r: nat)
    requires n > 0
    ensures LatestIn(w, n, r % n) == Some(r) <==> r < w <= r + n
  {
    var latest := LatestIn(w, n, r % n);
    if r < w <= r + n && latest != Some(r) {
      assert latest.Some? && r < latest.value;
      ModuloApart(r, latest.value, n);
    }
    if r + n < w {
      ModuloRound(r, n);
    }
  }

  // ----- the ring

  class Ring<T> {
    const size: nat
    const crc: T -> int
    const slots: array<Slot<T>>
    var writeIndex: nat
    var readIndex: nat
    // history: everything written and read, and whether every read came in time
    ghost var written: seq<T>
    ghost var got: seq<T>
    ghost var inTime: bool

    ghost predicate Valid()
      reads this, slots
    {
      && size > 0 && slots.Length == size
      && writeIndex == |written| % size && readIndex == |got| % size
      && (forall i {:trigger slots[i]} :: 0 <= i < size ==> var latest := LatestIn(|written|, size, i);
            latest.Some? ==> slots[i] == Slot(written[latest.value], crc(written[latest.value])))
      && (inTime ==> |got| <= |written| && got == written[..|got|])
    }

    /** The memory of the slots is as malloc returns it. */
    constructor (n: nat, crc: T -> int, memory: Slot<T>)
      requires n > 0
      ensures Valid() && size == n && this.crc == crc && written == [] && got == [] && inTime
      ensures fresh(slots)
    {
      size, this.crc := n, crc;
      slots := new Slot<T>[n](_ => memory);
      writeIndex, readIndex := 0, 0;
      written, got, inTime := [], [], true;
    }

    /** Indices stay inside the list. */
    lemma IndicesBounded()
      requires Valid()
      ensures writeIndex < size && readIndex < size
    {
    }

    /** One measurement is stored with its checksum and the write index moves on, wrapping at the list size. */
    method Write(body: T)
      requires Valid()
      modifies this`writeIndex, this`written, slots
      ensures Valid() && written == old(written) + [body]
    {
      ModuloNext(|written|, size);
      ghost var w := |written|;
      slots[writeIndex] := Slot(body, crc(body));
      writeIndex := writeIndex + 1;
      if writeIndex == size {
        writeIndex := 0;
      }
      written := written + [body];
    }

    /** The console shows the slot at the read index and says whether its checksum is good. In general that is
        the newest record of the slot; it is the next unread one exactly while the reader is behind the writer
        by no more than one round. */
    method Read() returns (slot: Slot<T>, good: bool)
      requires Valid()
      modifies this`readIndex, this`got, this`inTime
      ensures Valid() && got == old(got) + [slot.body]
      ensures inTime == (old(inTime) && |old(got)| < |written| <= |old(got)| + size)
      ensures good <==> slot.crc == crc(slot.body)
      ensures var latest := LatestIn(|written|, size, |old(got)| % size);
        latest.Some? ==> good && slot.body == written[latest.value]
      ensures |old(got)| < |written| <= |old(got)| + size ==> good && slot.body == written[|old(got)|]
    {
      ModuloNext(|got|, size);
      HoldsRecordIff(|written|, size, |got|);
      slot := slots[readIndex];
      good := slot.crc == crc(slot.body);
      readIndex := readIndex + 1;
      if readIndex == size {
        readIndex := 0;
      }
      inTime := inTime && |got| < |written| <= |got| + size;
      got := got + [slot.body];
    }
  }

  /** mallocACQmemorypart: a ring of a circuit breaker monitor. */
  method NewAcqRing<T>(crc: T -> int, memory: Slot<T>) returns (ring: Ring<T>)
    ensures fresh(ring) && fresh(ring.slots) && ring.Valid() && ring.size == 100
    ensures ring.crc == crc && ring.written == [] && ring.got == [] && ring.inTime
  {
    ring := new Ring<T>(SIZE_OF_ACQ_DATA_LIST_TO_CU, crc, memory);
  }

  /** mallocPDmemorypart: a ring of a partial discharge channel. */
  method NewPdRing<T>(crc: T -> int, memory: Slot<T>) returns (ring: Ring<T>)
    ensures fresh(ring) && fresh(ring.slots) && ring.Valid() && ring.size == 60
    ensures ring.crc == crc && ring.written == [] && ring.got == [] && ring.inTime
  {
    ring := new Ring<T>(SIZE_OF_PD_DATA_LIST_TO_CU, crc, memory);
  }
}
