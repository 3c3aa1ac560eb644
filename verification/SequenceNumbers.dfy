/** The instance's sequence counter: it runs through all 32-bit values but zero. */
module SequenceNumbers {
  import opened Words

  const LAST: uint32 := 0xffff_ffff

  function After(c: uint32): uint32 {
    if c == LAST then 1 else c + 1
  }

  class Counter {
    var sequenceNumber: uint32

    /** `eigrp_packet_sequence_reserve`. */
    method Reserve() returns (sequence: uint32)
      modifies this
      ensures sequence == Reserved(old(sequenceNumber), 0) && sequenceNumber == After(sequence)
      ensures forall k: nat :: Reserved(sequenceNumber, k) == Reserved(old(sequenceNumber), k + 1)
    {
      ghost var c := sequenceNumber;
      if sequenceNumber == 0 {
        sequenceNumber := 1;
      }
      sequence := sequenceNumber;
      sequenceNumber := Wrap32(sequenceNumber + 1);
      if sequenceNumber == 0 {
        sequenceNumber := 1;
      }
      forall k: nat ensures Reserved(sequenceNumber, k) == Reserved(c, k + 1) {
        ReservedShift(c, k);
      }
    }
  }

  /** The number the `k`-th reservation from now will return. */
  function Reserved(c: uint32, k: nat): uint32 {
    if k > 0 then After(Reserved(c, k - 1)) else if c == 0 then 1 else c
  }

  lemma {:induction false} ReservedShift(c: uint32, k: nat)
    ensures Reserved(After(Reserved(c, 0)), k) == Reserved(c, k + 1)
  {
    if k == 0 {
    } else {
      ReservedShift(c, k - 1);
    }
  }

  lemma {:induction false} ReservedForm(c: uint32, k: nat)
    requires k < LAST
    ensures var first := Reserved(c, 0);
            Reserved(c, k) == if first + k <= LAST then first + k else first + k - LAST
    ensures Reserved(c, k) != 0
  {
    if k == 0 {
    } else {
      ReservedForm(c, k - 1);
    }
  }

  /** No reserved number is zero, and none comes again within 2^32 - 1 reservations. */
  lemma ReservedAreFresh(c: uint32, j: nat, k: nat)
    requires j < k < j + LAST
    ensures Reserved(c, j) != Reserved(c, k) && Reserved(c, k) != 0
  {
    ReservedLater(c, j, k - j);
    ReservedForm(Reserved(c, j), k - j);
    ReservedPositive(c, j);
  }

  lemma {:induction false} ReservedPositive(c: uint32, j: nat)
    ensures Reserved(c, j) != 0
  {
    if j == 0 {
    } else {
      ReservedPositive(c, j - 1);
    }
  }

  lemma {:induction false} ReservedLater(c: uint32, j: nat, n: nat)
    ensures Reserved(c, j + n) == Reserved(Reserved(c, j), n)
  {
    ReservedPositive(c, j);
    if n == 0 {
    } else {
      ReservedLater(c, j, n - 1);
    }
  }
}
