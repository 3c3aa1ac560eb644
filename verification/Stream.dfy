/**
 The cursor stream packets are built in and read from: a fixed buffer with a read position and an end.
 A read needs a byte before the end; a write needs room after it.
 */
module Stream {
  import opened Words
  import opened Wire

  class Stream {
    const data: array<uint8>
    var getp: nat
    var endp: nat

    ghost predicate Valid()
      reads this
    {
      getp <= endp <= data.Length
    }

    constructor (size: nat)
      ensures Valid() && fresh(data) && data.Length == size && getp == endp == 0
    {
      data := new uint8[size](_ => 0);
      getp, endp := 0, 0;
    }

    /** The bytes between the read position and the end. */
    function Unread(): Bytes
      requires Valid()
      reads this, data
    {
      data[getp..endp]
    }

    /** Everything before the end. */
    function Written(): Bytes
      requires Valid()
      reads this, data
    {
      data[..endp]
    }

    function Room(): nat
      requires Valid()
      reads this
    {
      data.Length - endp
    }

    method SetGetp(pos: nat)
      requires Valid() && pos <= endp
      modifies this`getp
      ensures getp == pos
    {
      getp := pos;
    }

    method SetEndp(pos: nat)
      requires Valid() && getp <= pos <= data.Length
      modifies this`endp
      ensures endp == pos
    {
      endp := pos;
    }

    method GetC() returns (c: uint8)
      requires getp + 1 <= endp <= data.Length
      modifies this`getp
      ensures c == data[old(getp)] && getp == old(getp) + 1
    {
      c := data[getp];
      getp := getp + 1;
    }

    method GetW() returns (w: uint16)
      requires getp + 2 <= endp <= data.Length
      modifies this`getp
      ensures w == Num(data[old(getp)..old(getp) + 2]) && getp == old(getp) + 2
    {
      Num2Digits(data[getp], data[getp + 1]);
      assert data[getp..getp + 2] == [data[getp], data[getp + 1]];
      w := (data[getp] as int) * 0x100 + data[getp + 1] as int;
      getp := getp + 2;
    }

    method GetL() returns (l: uint32)
      requires getp + 4 <= endp <= data.Length
      modifies this`getp
      ensures l == Num(data[old(getp)..old(getp) + 4]) && getp == old(getp) + 4
    {
      ghost var s := data[getp..getp + 4];
      Num4Digits(s);
      assert s[..2] == data[getp..getp + 2] && s[2..] == data[getp + 2..getp + 4];
      var hi := GetW();
      var lo := GetW();
      l := hi as int * 0x1_0000 + lo as int;
    }

    method PutC(c: uint8)
      requires Valid() && Room() >= 1
      modifies this`endp, data
      ensures Valid() && Written() == old(Written()) + [c]
      ensures data[endp..] == old(data[endp + 1..])
    {
      data[endp] := c;
      endp := endp + 1;
    }

    method PutW(w: uint16)
      requires Valid() && Room() >= 2
      modifies this`endp, data
      ensures Valid() && Written() == old(Written()) + Be(2, w)
      ensures data[endp..] == old(data[endp + 2..])
    {
      ghost var was := Written();
      assert Be(2, w) == [w / 0x100, w % 0x100] by {
        assert Be(1, w / 0x100) == [w / 0x100];
      }
      PutC(w / 0x100);
      PutC(w % 0x100);
      assert Written() == was + [w / 0x100, w % 0x100];
    }

    method PutL(l: uint32)
      requires Valid() && Room() >= 4
      modifies this`endp, data
      ensures Valid() && Written() == old(Written()) + Be(4, l)
    {
      ghost var was := Written();
      BeSplit(l);
      PutW(l / 0x1_0000);
      PutW(l % 0x1_0000);
      assert Written() == was + (Be(2, l / 0x1_0000) + Be(2, l % 0x1_0000));
    }
  }

  lemma Num2Digits(a: uint8, b: uint8)
    ensures Num([a, b]) == a as int * 0x100 + b as int
  {
    assert [a][..0] == [] && Num([a]) == a as int;
    assert [a, b][..1] == [a];
  }

  lemma Num4Digits(s: Bytes)
    requires |s| == 4
    ensures Num(s) == Num(s[..2]) * 0x1_0000 + Num(s[2..])
  {
    assert s[..3][..2] == s[..2] && Num(s[..3]) == Num(s[..2]) * 0x100 + s[2] as int;
    Num2Digits(s[2], s[3]);
    assert s[2..] == [s[2], s[3]];
  }

  /** The bytes of a 32-bit number are those of its halves. */
  lemma BeSplit(l: uint32)
    ensures Be(4, l) == Be(2, l / 0x1_0000) + Be(2, l % 0x1_0000)
  {
    var hi, lo := l / 0x1_0000, l % 0x1_0000;
    HalvesByBytes(l, hi, lo);
    assert Be(4, l) == Be(3, l / 0x100) + [lo % 0x100];
    assert Be(3, l / 0x100) == Be(2, hi) + [lo / 0x100];
    assert Be(2, lo) == Be(1, lo / 0x100) + [lo % 0x100];
    assert Be(1, lo / 0x100) == [lo / 0x100];
  }

  lemma HalvesByBytes(l: uint32, hi: nat, lo: nat)
    requires hi == l / 0x1_0000 && lo == l % 0x1_0000
    ensures l / 0x100 == hi * 0x100 + lo / 0x100 && l % 0x100 == lo % 0x100
    ensures l / 0x100 / 0x100 == hi && l / 0x100 % 0x100 == lo / 0x100 < 0x100
  {
    DivModUnique(l, 0x100, hi * 0x100 + lo / 0x100, lo % 0x100);
    DivModUnique(l / 0x100, 0x100, hi, lo / 0x100);
  }
}
