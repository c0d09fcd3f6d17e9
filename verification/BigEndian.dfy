/** Fixed-width big-endian integers, as encoding/binary writes and reads them. */
module BigEndian {
  import opened Common

  type Bytes = seq<byte>

  type int64 = x: int | -0x8000_0000_0000_0000 <= x < 0x8000_0000_0000_0000

  /** The number of values that fit in `n` bytes. */
  function Capacity(n: nat): nat {
    if n == 0 then 1 else 256 * Capacity(n - 1)
  }

  /** The low `n` bytes of `v`, most significant first. */
  function Put(n: nat, v: nat): (b: Bytes)
    ensures |b| == n
  {
    if n == 0 then [] else Put(n - 1, v / 256) + [v % 256]
  }

  function Get(b: Bytes): nat {
    if b == [] then 0 else 256 * Get(b[..|b| - 1]) + b[|b| - 1]
  }

  lemma {:induction false} GetOfPut(n: nat, v: nat)
    requires v < Capacity(n)
    ensures Get(Put(n, v)) == v
  {
    if n > 0 {
      GetOfPut(n - 1, v / 256);
      assert Put(n, v)[..n - 1] == Put(n - 1, v / 256);
    }
  }

  lemma {:induction false} PutOfGet(b: Bytes)
    ensures Put(|b|, Get(b)) == b && Get(b) < Capacity(|b|)
  {
    if b != [] {
      PutOfGet(b[..|b| - 1]);
      assert b == b[..|b| - 1] + [b[|b| - 1]];
    }
  }

  lemma Widths()
    ensures Capacity(2) == 0x1_0000 && Capacity(4) == 0x1_0000_0000 && Capacity(8) == 0x1_0000_0000_0000_0000
  {
    assert Capacity(2) == 256 * Capacity(1);
    assert Capacity(4) == 256 * Capacity(3) && Capacity(3) == 256 * Capacity(2);
    assert Capacity(6) == 256 * Capacity(5) && Capacity(5) == 256 * Capacity(4);
    assert Capacity(8) == 256 * Capacity(7) && Capacity(7) == 256 * Capacity(6);
  }

  /** The most significant byte comes first. */
  lemma {:induction false} FirstByteIsHighest(n: nat, v: nat)
    requires n > 0 && v < Capacity(n)
    ensures v == Put(n, v)[0] * Capacity(n - 1) + Get(Put(n, v)[1..]) && |Put(n, v)[1..]| == n - 1
  {
    var b := Put(n, v);
    GetOfPut(n, v);
    GetFirst(b);
  }

  lemma {:induction false} GetFirst(b: Bytes)
    requires b != []
    ensures Get(b) == b[0] * Capacity(|b| - 1) + Get(b[1..])
  {
    var n := |b| - 1;
    if n == 0 {
      assert b[..0] == [] && b[1..] == [];
    } else {
      GetFirst(b[..n]);
      assert b[..n][1..] == b[1..][..n - 1] && b[1..][n - 1] == b[n];
      assert Get(b[1..]) == 256 * Get(b[1..][..n - 1]) + b[n];
      assert b[0] * Capacity(n) == 256 * (b[0] * Capacity(n - 1));
    }
  }

  /** Sixteen and thirty-two bits, byte by byte. */
  lemma ShortBytes(v: nat)
    requires v < 0x1_0000
    ensures Put(2, v) == [v / 0x100, v % 0x100]
  {
    assert Put(1, v / 256) == Put(0, v / 256 / 256) + [v / 256 % 256];
  }

  lemma WordBytes(v: nat)
    requires v < 0x1_0000_0000
    ensures Put(4, v) == [v / 0x100_0000, v / 0x1_0000 % 0x100, v / 0x100 % 0x100, v % 0x100]
  {
    var a, b, c := v / 256, v / 256 / 256, v / 256 / 256 / 256;
    assert Put(1, c) == Put(0, c / 256) + [c % 256];
    assert Put(2, b) == Put(1, c) + [b % 256];
    assert Put(3, a) == Put(2, b) + [a % 256];
  }

  lemma WordValue(v: nat)
    requires v < 0x1_0000_0000
    ensures var b := Put(4, v);
            0x100_0000 * (b[0] as int) + 0x1_0000 * (b[1] as int) + 0x100 * (b[2] as int) + b[3] == v
  {
    var b := Put(4, v);
    Widths();
    GetOfPut(4, v);
    assert b[..3][..2] == b[..2] && b[..2][..1] == b[..1] && b[..1][..0] == [];
    assert Get(b[..1]) == b[0] && Get(b[..2]) == 256 * Get(b[..1]) + b[1];
    assert Get(b[..3]) == 256 * Get(b[..2]) + b[2];
  }

  /** A negative time wraps around 2^64. */
  lemma UnsignedMeans(x: int64)
    ensures ToUnsigned(x) == x % 0x1_0000_0000_0000_0000
  {
  }

  /** uint64(x) for a signed x: two's complement. */
  function ToUnsigned(x: int64): nat {
    if x < 0 then x + 0x1_0000_0000_0000_0000 else x
  }

  /** int64(u) for u below 2^64. */
  function ToSigned(u: nat): int64
    requires u < 0x1_0000_0000_0000_0000
  {
    if u < 0x8000_0000_0000_0000 then u else u - 0x1_0000_0000_0000_0000
  }

  lemma SignedRoundTrip(x: int64)
    ensures Get(Put(8, ToUnsigned(x))) < 0x1_0000_0000_0000_0000
    ensures ToSigned(Get(Put(8, ToUnsigned(x)))) == x
  {
    Widths();
    GetOfPut(8, ToUnsigned(x));
  }
}
