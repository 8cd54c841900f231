/** Bytes and little-endian integers. */
module Bytes {

  newtype u8 = x: int | 0 <= x < 256

  const U16: nat := 0x1_0000
  const U32: nat := 0x1_0000_0000
  const U64: nat := 0x1_0000_0000_0000_0000

  function Power256(n: nat): (p: nat)
    ensures p >= 1
  {
    if n == 0 then 1 else 256 * Power256(n - 1)
  }

  /** The `n` low bytes of `value`, least significant first. */
  function ToLe(value: nat, n: nat): (s: seq<u8>)
    ensures |s| == n
  {
    if n == 0 then [] else [(value % 256) as u8] + ToLe(value / 256, n - 1)
  }

  function FromLe(s: seq<u8>): (value: nat)
    ensures value < Power256(|s|)
  {
    if s == [] then 0 else s[0] as nat + 256 * FromLe(s[1..])
  }

  /** Decoding undoes encoding for every value that fits. */
  lemma {:induction false} LeRoundTrip(value: nat, n: nat)
    requires value < Power256(n)
    ensures FromLe(ToLe(value, n)) == value
  {
    if n > 0 {
      LeRoundTrip(value / 256, n - 1);
      assert ToLe(value, n)[1..] == ToLe(value / 256, n - 1);
    }
  }

  /** Different bytes decode to different values. */
  lemma {:induction false} LeInjective(s: seq<u8>, t: seq<u8>)
    requires |s| == |t| && s != t
    ensures FromLe(s) != FromLe(t)
  {
    if s[0] == t[0] {
      assert s == [s[0]] + s[1..] && t == [t[0]] + t[1..];
      LeInjective(s[1..], t[1..]);
    }
  }

  lemma Powers()
    ensures Power256(2) == U16 && Power256(4) == U32 && Power256(8) == U64
  {
    assert Power256(1) == 256;
    assert Power256(2) == 256 * 256;
    assert Power256(3) == 256 * 256 * 256;
    assert Power256(4) == 256 * 256 * 256 * 256;
    assert Power256(5) == 256 * Power256(4);
    assert Power256(6) == 256 * Power256(5);
    assert Power256(7) == 256 * Power256(6);
    assert Power256(8) == 256 * Power256(7);
  }
}
