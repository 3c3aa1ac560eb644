/** Numbers in network byte order. */
module Wire {
  import opened Words

  type Bytes = seq<uint8>

  /** The sizes of the EIGRP header and of a TLV header, and the type of the authentication TLV. */
  const HEADER_LEN := 20
  const HDR := 4
  const TLV_AUTH: uint16 := 2

  /** The low `n` bytes of `v`, most significant first. */
  function Be(n: nat, v: nat): (s: Bytes)
    ensures |s| == n
  {
    if n == 0 then [] else Be(n - 1, v / 0x100) + [v % 0x100]
  }

  function Num(s: Bytes): nat {
    if s == [] then 0 else Num(s[..|s| - 1]) * 0x100 + s[|s| - 1] as int
  }

  function Pow256(n: nat): (p: nat)
    ensures p > 0
  {
    if n == 0 then 1 else 0x100 * Pow256(n - 1)
  }

  lemma {:induction false} NumBound(s: Bytes)
    ensures Num(s) < Pow256(|s|)
  {
    if s == [] {
    } else {
      NumBound(s[..|s| - 1]);
    }
  }

  /** Reading back what was written gives the value cut to the width of the field. */
  lemma {:induction false} NumBe(n: nat, v: nat)
    ensures Num(Be(n, v)) == v % Pow256(n)
  {
    if n == 0 {
    } else {
      var s := Be(n, v);
      assert s[..n - 1] == Be(n - 1, v / 0x100);
      NumBe(n - 1, v / 0x100);
      CutDigit(v, Pow256(n - 1));
    }
  }

  /** The most significant byte comes first. */
  lemma {:induction false} BeDigit(n: nat, v: nat, i: nat)
    requires i < n
    ensures Be(n, v)[i] == v / Pow256(n - 1 - i) % 0x100
  {
    if i == n - 1 {
    } else {
      BeDigit(n - 1, v / 0x100, i);
      CutTwice(v, Pow256(n - 2 - i));
    }
  }

  lemma CutTwice(v: nat, p: nat)
    requires p > 0
    ensures v / 0x100 / p == v / (0x100 * p)
  {
    var q, r := v / 0x100, v % 0x100;
    var a, b := q / p, q % p;
    assert q == p * a + b;
    assert v == 0x100 * (p * a + b) + r;
    assert 0x100 * (p * a) == (0x100 * p) * a;
    DivModUnique(v, 0x100 * p, a, 0x100 * b + r);
  }

  lemma CutDigit(v: nat, p: nat)
    requires p > 0
    ensures v % (0x100 * p) == (v / 0x100 % p) * 0x100 + v % 0x100
  {
    var q, r := v / 0x100, v % 0x100;
    var a, b := q / p, q % p;
    assert q == p * a + b;
    assert v == 0x100 * (p * a + b) + r;
    assert 0x100 * (p * a) == (0x100 * p) * a;
    DivModUnique(v, 0x100 * p, a, 0x100 * b + r);
  }

  lemma DivModUnique(v: nat, m: nat, a: nat, r: nat)
    requires m > 0 && v == m * a + r && r < m
    ensures v % m == r && v / m == a
  {
    var d := v / m - a;
    assert v == m * (v / m) + v % m;
    assert m * (v / m) - m * a == m * d;
    assert m * -d == -(m * d);
    if d > 0 {
      Monotone(m, 1, d);
      assert false;
    } else if d < 0 {
      Monotone(m, 1, -d);
      assert false;
    }
  }

  lemma Monotone(m: nat, x: int, y: int)
    requires x <= y
    ensures m * x <= m * y
  {
    assert m * y - m * x == m * (y - x);
  }

  lemma FieldHolds(n: nat, v: nat)
    requires v < Pow256(n)
    ensures Num(Be(n, v)) == v
  {
    NumBe(n, v);
  }

  lemma Widths()
    ensures Pow256(1) == 0x100 && Pow256(2) == 0x1_0000
    ensures Pow256(4) == 0x1_0000_0000 && Pow256(6) == 0x1_0000_0000_0000
  {
    assert Pow256(3) == 0x100_0000;
    assert Pow256(5) == 0x100_0000_0000;
  }

  function Num2(s: Bytes): (v: uint16)
    requires |s| == 2
  {
    NumBound(s);
    Widths();
    Num(s)
  }

  function Num4(s: Bytes): (v: uint32)
    requires |s| == 4
  {
    NumBound(s);
    Widths();
    Num(s)
  }

  lemma TwoDigits(s: Bytes)
    requires |s| == 2
    ensures Num2(s) == s[0] as int * 0x100 + s[1] as int
  {
    assert s[..1][..0] == [] && Num(s[..1]) == s[0];
  }

  /** The 16-bit field at offset `i`. */
  function FieldAt(s: Bytes, i: nat): uint16
    requires i + 2 <= |s|
  {
    Num2(s[i..i + 2])
  }

  lemma Assoc(w: Bytes, a: Bytes, b: Bytes)
    ensures w + a + b == w + (a + b)
  {
  }
}
