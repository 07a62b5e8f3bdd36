/** Bytes of a file, and integers in them as the processor lays them out. */
module FileBytes {
  import opened Zlib

  type Bytes = seq<byte>

  /** A 32-bit integer in memory order. */
  function Int32(n: nat): (r: Bytes)
    requires n < 0x1_0000_0000
    ensures |r| == 4
  {
    [n % 256, n / 256 % 256, n / 65536 % 256, n / 0x100_0000]
  }

  function Value32(b: Bytes): nat
    requires |b| == 4
  {
    var b0: nat, b1: nat, b2: nat, b3: nat := b[0], b[1], b[2], b[3];
    b0 + 256 * b1 + 65536 * b2 + 0x100_0000 * b3
  }

  lemma Int32Back(n: nat)
    requires n < 0x1_0000_0000
    ensures Value32(Int32(n)) == n
  {
    var a := n / 256;
    var b := a / 256;
    assert b == n / 65536 && b / 256 == n / 0x100_0000;
    assert n == 256 * a + n % 256 && a == 256 * b + a % 256 && b == 256 * (b / 256) + b % 256;
  }
}
