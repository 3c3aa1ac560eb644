/**
 The fixed-width unsigned integers of the daemon, as subsets of `int`, and the few types every part shares.
 Arithmetic on the integers is unbounded, so each wrap-around is written out with `Wrap32` or `Wrap64`.
 */
module Words {

  type uint8 = x: int | 0 <= x < 0x100
  type uint16 = x: int | 0 <= x < 0x1_0000
  type uint32 = x: int | 0 <= x < 0x1_0000_0000
  type uint64 = x: int | 0 <= x < 0x1_0000_0000_0000_0000

  type NbrId = nat

  datatype NbrState = Down | Pending | Up

  datatype Option<+T> = None | Some(value: T)

  function Wrap32(x: nat): uint32 {
    x % 0x1_0000_0000
  }

  function Wrap64(x: nat): uint64 {
    x % 0x1_0000_0000_0000_0000
  }

  function Min(a: nat, b: nat): nat {
    if a < b then a else b
  }
}
