// Machine words of the source. Every wrap-around is written out with these functions.
module Words {
  const TWO16 := 0x1_0000
  const TWO32 := 0x1_0000_0000

  type U8 = x: int | 0 <= x < 256
  type U16 = x: int | 0 <= x < 0x1_0000
  type U32 = x: int | 0 <= x < 0x1_0000_0000
  type U64 = x: int | 0 <= x < 0x1_0000_0000_0000_0000

  type Byte = U8

  // IPv4 protocol number
  const PROTO_UDP: U8 := 17

  function Wrap16(x: int): U16 {
    x % 0x1_0000
  }

  function Wrap32(x: int): U32 {
    x % 0x1_0000_0000
  }

  // Reducing an intermediate sum changes nothing.
  lemma Wrap32Add(x: int, y: int)
    ensures Wrap32(Wrap32(x) + y) == Wrap32(x + y)
  {
    assert x == TWO32 * (x / TWO32) + Wrap32(x);
    var k := x / TWO32;
    assert x + y == TWO32 * k + (Wrap32(x) + y);
    WrapShift(Wrap32(x) + y, k);
  }

  lemma WrapShift(x: int, k: int)
    ensures Wrap32(TWO32 * k + x) == Wrap32(x)
  {
    var q := x / TWO32;
    assert TWO32 * k + x == TWO32 * (k + q) + x % TWO32;
  }

  // Two offsets less than one turn apart that wrap to the same number are equal.
  lemma Wrap32Injective(base: int, x: nat, y: nat)
    requires x < TWO32 && y < TWO32
    requires Wrap32(base + x) == Wrap32(base + y)
    ensures x == y
  {
    var kx, ky := (base + x) / TWO32, (base + y) / TWO32;
    assert x - y == TWO32 * (kx - ky);
  }
}

module Options {
  datatype Option<+T> = None | Some(value: T)
}
