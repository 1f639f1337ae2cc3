/** Little-endian integers, as every file format and frame of the engine writes them. */
module Bytes {

  type Byte = b: int | 0 <= b < 256

  const U32: nat := 0x1_0000_0000

  /** `n` in `k` bytes, least significant first. */
  function LittleEndian(n: nat, k: nat): (bytes: seq<Byte>)
    ensures |bytes| == k
  {
    if k == 0 then [] else [n % 256] + LittleEndian(n / 256, k - 1)
  }

  function Decoded(bytes: seq<Byte>): nat {
    if bytes == [] then 0 else bytes[0] + 256 * Decoded(bytes[1..])
  }

  function Limit(k: nat): (n: nat)
    ensures n > 0
  {
    if k == 0 then 1 else 256 * Limit(k - 1)
  }

  /** Decoding undoes encoding for every integer of that width. */
  lemma {:induction false} DecodeEncode(n: nat, k: nat)
    requires n < Limit(k)
    ensures Decoded(LittleEndian(n, k)) == n
  {
    if k > 0 {
      DecodeEncode(n / 256, k - 1);
      assert ([n % 256] + LittleEndian(n / 256, k - 1))[1..] == LittleEndian(n / 256, k - 1);
    }
  }

  /** And encoding undoes decoding. */
  lemma {:induction false} EncodeDecode(bytes: seq<Byte>)
    ensures Decoded(bytes) < Limit(|bytes|) && LittleEndian(Decoded(bytes), |bytes|) == bytes
  {
    if bytes != [] {
      EncodeDecode(bytes[1..]);
      var rest := Decoded(bytes[1..]);
      assert Decoded(bytes) % 256 == bytes[0] && Decoded(bytes) / 256 == rest;
    }
  }

  lemma FourBytes()
    ensures Limit(4) == U32
  {
    assert Limit(2) == 65536;
  }
}
