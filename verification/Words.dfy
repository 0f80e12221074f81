/** Fixed-width unsigned integers as ranges of int, the little-endian image of one in memory, and the few facts about
    division by a modulus that the other modules build on. */
module Words {
  const TWO_8: int := 0x100
  const TWO_16: int := 0x1_0000
  const TWO_32: int := 0x1_0000_0000
  const TWO_64: int := 0x1_0000_0000_0000_0000

  type UInt8 = x: int | 0 <= x < 0x100
  type UInt16 = x: int | 0 <= x < 0x1_0000
  type UInt32 = x: int | 0 <= x < 0x1_0000_0000
  type UInt64 = x: int | 0 <= x < 0x1_0000_0000_0000_0000
  type Byte = UInt8

  datatype Option<+T> = None | Some(value: T)

  function Pow256(n: nat): (r: nat)
    ensures r > 0
  {
    if n == 0 then 1 else 256 * Pow256(n - 1)
  }

  /** The bytes of an `n`-byte unsigned integer, least significant first. */
  function ToBytes(v: nat, n: nat): (b: seq<Byte>)
    ensures |b| == n
  {
    if n == 0 then [] else [v % 256] + ToBytes(v / 256, n - 1)
  }

  function FromBytes(b: seq<Byte>): (v: nat)
    ensures v < Pow256(|b|)
  {
    if b == [] then 0 else b[0] + 256 * FromBytes(b[1..])
  }

  /** Reading back a stored integer yields it modulo its width. */
  lemma {:induction false} ToBytesThenFromBytes(v: nat, n: nat)
    ensures FromBytes(ToBytes(v, n)) == v % Pow256(n)
  {
    if n == 0 {
    } else {
      var b := ToBytes(v, n);
      assert b[1..] == ToBytes(v / 256, n - 1);
      ToBytesThenFromBytes(v / 256, n - 1);
      ModStep(v, Pow256(n - 1));
    }
  }

  lemma {:induction false} FromBytesThenToBytes(b: seq<Byte>)
    ensures ToBytes(FromBytes(b), |b|) == b
  {
    if b == [] {
    } else {
      FromBytesThenToBytes(b[1..]);
      assert FromBytes(b) / 256 == FromBytes(b[1..]);
    }
  }

  lemma ModStep(v: nat, m: nat)
    requires m > 0
    ensures v % (256 * m) == v % 256 + 256 * ((v / 256) % m)
  {
    var q, r := (v / 256) / m, (v / 256) % m;
    assert v / 256 == m * q + r;
    assert v == 256 * (m * q + r) + v % 256;
    var rest := v % 256 + 256 * r;
    assert 256 * (m * q) == (256 * m) * q;
    assert v == (256 * m) * q + rest;
    assert 0 <= rest < 256 * m;
    DivModUnique(v, 256 * m, q, rest);
  }

  lemma DivModUnique(v: nat, d: nat, q: nat, r: nat)
    requires d > 0 && v == d * q + r && r < d
    ensures v / d == q && v % d == r
  {
    var gap := v / d - q;
    MulSub(d, v / d, q);
    assert d * gap == r - v % d;
    if gap > 0 { MulAtLeast(d, gap); }
    MulSub(d, 0, gap);
    if gap < 0 { MulAtLeast(d, -gap); }
  }

  lemma MulSub(d: int, a: int, b: int)
    ensures d * (a - b) == d * a - d * b
  {
  }

  lemma MulAtLeast(d: nat, k: nat)
    requires k > 0
    ensures d * k >= d
  {
  }

  lemma ModPlus(d: nat, k: nat, r: nat)
    requires d > 0
    ensures (d * k + r) % d == r % d
  {
    var q := r / d;
    assert d * k + r == d * (k + q) + r % d by {
      assert d * (k + q) == d * k + d * q;
    }
    DivModUnique(d * k + r, d, k + q, r % d);
  }

  lemma AddMod(a: nat, b: nat, m: nat)
    requires m > 0
    ensures (a + b) % m == (a + b % m) % m
  {
    ModPlus(m, b / m, a + b % m);
  }

  lemma SmallMod(a: nat, m: nat)
    requires a < m
    ensures a % m == a
  {
    DivModUnique(a, m, 0, a);
  }
}
