/** Bytes and big-endian numbers, as `struct.pack('>...')` and `int.from_bytes(..., 'big')`. */
module Bytes {

  type Byte = x: int | 0 <= x < 256
  type Data = seq<Byte>

  function Power256(n: nat): (p: nat)
    ensures p > 0
  {
    if n == 0 then 1 else 256 * Power256(n - 1)
  }

  /** The number a big-endian field holds. */
  function Number(b: Data): nat {
    if b == [] then 0 else Number(b[..|b| - 1]) * 256 + b[|b| - 1]
  }

  /** The big-endian field of `size` bytes. */
  function Big(value: nat, size: nat): (b: Data)
    ensures |b| == size
  {
    if size == 0 then [] else Big(value / 256, size - 1) + [value % 256]
  }

  lemma {:induction false} NumberOfBig(value: nat, size: nat)
    requires value < Power256(size)
    ensures Number(Big(value, size)) == value
  {
    if size > 0 {
      NumberOfBig(value / 256, size - 1);
      var b := Big(value, size);
      assert b[..size - 1] == Big(value / 256, size - 1);
    }
  }

  lemma {:induction false} BigOfNumber(b: Data)
    ensures Big(Number(b), |b|) == b
    ensures Number(b) < Power256(|b|)
  {
    if b != [] {
      BigOfNumber(b[..|b| - 1]);
      assert b == b[..|b| - 1] + [b[|b| - 1]];
    }
  }

  lemma Widths()
    ensures Power256(2) == 0x1_0000 && Power256(4) == 0x1_0000_0000 && Power256(8) == 0x1_0000_0000_0000_0000
  {
    assert Power256(1) == 256;
    assert Power256(3) == 0x100_0000;
    assert Power256(5) == 0x100_0000_0000;
    assert Power256(6) == 0x1_0000_0000_0000;
    assert Power256(7) == 0x100_0000_0000_0000;
  }

  predicate Unsigned64(n: int) {
    0 <= n < 0x1_0000_0000_0000_0000
  }

  /** A field of eight bytes holds a number exactly when it is that number, written out. */
  lemma Wide(field: Data, value: int)
    requires |field| == 8
    ensures Number(field) == value <==> Unsigned64(value) && field == Big(value, 8)
  {
    Widths();
    BigOfNumber(field);
    if Unsigned64(value) { NumberOfBig(value, 8); }
  }

  predicate AllZero(b: Data) {
    forall i :: 0 <= i < |b| ==> b[i] == 0
  }

  lemma Cut(a: Data, b: Data)
    ensures (a + b)[..|a|] == a && (a + b)[|a|..] == b
  {
  }
}
