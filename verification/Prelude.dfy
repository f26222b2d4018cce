/** Types and small sequence facts shared by the other modules. */
module Prelude {

  datatype Option<+T> = None | Some(value: T)

  datatype Result<+T, +E> = Ok(value: T) | Err(error: E)

  type byte = n: int | 0 <= n < 0x100

  /** Keys, node identifiers, nonces and digests: 32 bytes. */
  type Bytes32 = s: seq<byte> | |s| == 32 witness seq(32, _ => 0)

  /** Ed25519 signatures: 64 bytes. */
  type Bytes64 = s: seq<byte> | |s| == 64 witness seq(64, _ => 0)

  type u8 = byte
  type u16 = n: int | 0 <= n < 0x1_0000
  type u32 = n: int | 0 <= n < 0x1_0000_0000
  type u64 = n: int | 0 <= n < 0x1_0000_0000_0000_0000

  /** `n` copies of `x`. */
  function Repeat<T>(n: nat, x: T): (r: seq<T>)
    ensures |r| == n
    ensures forall i :: 0 <= i < n ==> r[i] == x
  {
    if n == 0 then [] else [x] + Repeat(n - 1, x)
  }

  /** `a.saturating_sub(b)` on unsigned integers. */
  function SatSub(a: nat, b: nat): (r: nat)
    ensures r + b >= a && (r > 0 ==> r + b == a)
  {
    if a < b then 0 else a - b
  }

  lemma Associate<T>(a: seq<T>, b: seq<T>, c: seq<T>)
    ensures a + (b + c) == (a + b) + c
  {
  }

  lemma SplitAt<T>(a: seq<T>, b: seq<T>)
    ensures (a + b)[..|a|] == a && (a + b)[|a|..] == b
  {
  }

  /** Equal byte strings cut at the same place have equal parts. */
  lemma Cut(a: seq<byte>, b: seq<byte>, x: seq<byte>, y: seq<byte>)
    requires a + x == b + y && |a| == |b|
    ensures a == b && x == y
  {
    assert a == (a + x)[..|a|] && b == (b + y)[..|b|];
    assert x == (a + x)[|a|..] && y == (b + y)[|b|..];
  }

  function BigEndian16(n: u16): (r: seq<byte>)
    ensures |r| == 2 && FromBigEndian16(r) == n
  {
    [n / 0x100, n % 0x100]
  }

  function FromBigEndian16(s: seq<byte>): (n: u16)
    requires |s| == 2
  {
    s[0] as int * 0x100 + s[1]
  }

  function BigEndian32(n: u32): (r: seq<byte>)
    ensures |r| == 4 && FromBigEndian32(r) == n
  {
    BigEndian16(n / 0x1_0000) + BigEndian16(n % 0x1_0000)
  }

  function FromBigEndian32(s: seq<byte>): (n: u32)
    requires |s| == 4
  {
    FromBigEndian16(s[..2]) as int * 0x1_0000 + FromBigEndian16(s[2..])
  }

  function BigEndian64(n: u64): (r: seq<byte>)
    ensures |r| == 8 && FromBigEndian64(r) == n
  {
    BigEndian32(n / 0x1_0000_0000) + BigEndian32(n % 0x1_0000_0000)
  }

  function FromBigEndian64(s: seq<byte>): (n: u64)
    requires |s| == 8
  {
    FromBigEndian32(s[..4]) as int * 0x1_0000_0000 + FromBigEndian32(s[4..])
  }

  /** `to_le_bytes` of a 64-bit integer. */
  function LittleEndian64(n: u64): (r: seq<byte>)
    ensures |r| == 8 && FromLittleEndian64(r) == n
  {
    var r := BigEndian64(n);
    [r[7], r[6], r[5], r[4], r[3], r[2], r[1], r[0]]
  }

  function FromLittleEndian64(s: seq<byte>): (n: u64)
    requires |s| == 8
  {
    FromBigEndian64([s[7], s[6], s[5], s[4], s[3], s[2], s[1], s[0]])
  }
}
