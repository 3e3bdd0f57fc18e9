/** Fixed-width unsigned integers and their big-endian byte encodings. */
module Bytes {
  type u8 = x: int | 0 <= x < 0x100
  type u16 = x: int | 0 <= x < 0x1_0000
  type u32 = x: int | 0 <= x < 0x1_0000_0000
  type u64 = x: int | 0 <= x < 0x1_0000_0000_0000_0000

  const MAX_U16: u16 := 0xffff
  const MAX_U32: u32 := 0xffff_ffff
  const MAX_U64: u64 := 0xffff_ffff_ffff_ffff

  function U16(n: u16): (s: seq<u8>)
    ensures |s| == 2
  {
    [n / 0x100, n % 0x100]
  }

  function U32(n: u32): (s: seq<u8>)
    ensures |s| == 4
  {
    U16(n / 0x1_0000) + U16(n % 0x1_0000)
  }

  function U64(n: u64): (s: seq<u8>)
    ensures |s| == 8
  {
    U32(n / 0x1_0000_0000) + U32(n % 0x1_0000_0000)
  }

  function FromU16(s: seq<u8>): u16
    requires |s| == 2
  {
    s[0] as int * 0x100 + s[1]
  }

  function FromU32(s: seq<u8>): u32
    requires |s| == 4
  {
    FromU16(s[..2]) * 0x1_0000 + FromU16(s[2..])
  }

  function FromU64(s: seq<u8>): u64
    requires |s| == 8
  {
    FromU32(s[..4]) * 0x1_0000_0000 + FromU32(s[4..])
  }

  /** The first byte weighs most. */
  lemma NetworkOrder(n: u64, m: u32, k: u16)
    ensures var s := U64(n);
            n == (((((((s[0] as int * 0x100 + s[1]) * 0x100 + s[2]) * 0x100 + s[3]) * 0x100 + s[4]) * 0x100 + s[5])
                   * 0x100 + s[6]) * 0x100) + s[7]
    ensures var s := U32(m); m == ((s[0] as int * 0x100 + s[1]) * 0x100 + s[2]) * 0x100 + s[3]
    ensures U16(k)[0] as int * 0x100 + U16(k)[1] == k
  {
  }

  lemma U16RoundTrip(n: u16)
    ensures FromU16(U16(n)) == n
  {
  }

  lemma U32RoundTrip(n: u32)
    ensures FromU32(U32(n)) == n
  {
    assert U32(n)[..2] == U16(n / 0x1_0000);
    assert U32(n)[2..] == U16(n % 0x1_0000);
  }

  lemma U64RoundTrip(n: u64)
    ensures FromU64(U64(n)) == n
  {
    hide U32, FromU32;
    assert U64(n)[..4] == U32(n / 0x1_0000_0000);
    assert U64(n)[4..] == U32(n % 0x1_0000_0000);
    U32RoundTrip(n / 0x1_0000_0000);
    U32RoundTrip(n % 0x1_0000_0000);
  }

  lemma U16Canonical(s: seq<u8>)
    requires |s| == 2
    ensures U16(FromU16(s)) == s
  {
  }

  lemma U32Canonical(s: seq<u8>)
    requires |s| == 4
    ensures U32(FromU32(s)) == s
  {
    hide U16, FromU16;
    U16Canonical(s[..2]);
    U16Canonical(s[2..]);
    assert s == s[..2] + s[2..];
  }

  lemma U64Canonical(s: seq<u8>)
    requires |s| == 8
    ensures U64(FromU64(s)) == s
  {
    hide U32, FromU32;
    U32Canonical(s[..4]);
    U32Canonical(s[4..]);
    assert s == s[..4] + s[4..];
  }
}
