/** Bytes, little-endian words and the small option type every module shares. */
module Bytes {
  type byte = b: int | 0 <= b < 256
  type Bytes = seq<byte>

  datatype Option<+T> = None | Some(value: T)

  function Min(a: nat, b: nat): (r: nat)
    ensures r == a || r == b
  {
    if a < b then a else b
  }

  function Max(a: nat, b: nat): (r: nat)
    ensures r == a || r == b
  {
    if a < b then b else a
  }

  const U32_LIMIT: nat := 0x1_0000_0000
  const U64_MAX: nat := 0xFFFF_FFFF_FFFF_FFFF

  function ToLE32(n: nat): (r: Bytes)
    requires n < U32_LIMIT
    ensures |r| == 4
  {
    [n % 256, n / 256 % 256, n / 65536 % 256, n / 16777216]
  }

  function FromLE32(s: Bytes): (n: nat)
    requires |s| == 4
    ensures n < U32_LIMIT
  {
    var b0: int, b1: int, b2: int, b3: int := s[0], s[1], s[2], s[3];
    b0 + 256 * b1 + 65536 * b2 + 16777216 * b3
  }

  lemma LE32RoundTrip(n: nat)
    requires n < U32_LIMIT
    ensures FromLE32(ToLE32(n)) == n
  {
    assert n / 65536 == n / 256 / 256;
    assert n / 16777216 == n / 65536 / 256;
  }

  lemma LE32Injective(s: Bytes, t: Bytes)
    requires |s| == 4 && |t| == 4 && FromLE32(s) == FromLE32(t)
    ensures s == t
  {
    var a0: int, a1: int, a2: int, a3: int := s[0], s[1], s[2], s[3];
    var b0: int, b1: int, b2: int, b3: int := t[0], t[1], t[2], t[3];
    assert a3 == b3;
    assert a2 == b2;
    assert a1 == b1 && a0 == b0;
  }

  predicate AllZero(s: Bytes) {
    forall i :: 0 <= i < |s| ==> s[i] == 0
  }

  function Zeros(n: nat): (r: Bytes)
    ensures |r| == n && AllZero(r)
  {
    seq(n, _ => 0)
  }
}
