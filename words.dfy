/**
 * Machine words and the little-endian byte layout that every wire format in
 * the repository uses: each `u64` coefficient is written with `to_le_bytes`
 * and read back with `from_le_bytes`, eight bytes per coefficient, in index
 * order.
 */
module Words {

  const U64_MODULUS: nat := 0x1_0000_0000_0000_0000
  const I64_MIN: int := -0x8000_0000_0000_0000
  const I64_LIMIT: int := 0x8000_0000_0000_0000

  type u8 = x: int | 0 <= x < 0x100
  type u32 = x: int | 0 <= x < 0x1_0000_0000
  type u64 = x: int | 0 <= x < 0x1_0000_0000_0000_0000
  type i64 = x: int | -0x8000_0000_0000_0000 <= x < 0x8000_0000_0000_0000

  /** `x.wrapping_add(y)` on `u64`. */
  function WrappingAdd(x: u64, y: u64): u64 {
    (x + y) % U64_MODULUS
  }

  /** `x.wrapping_mul(y)` on `u64`. */
  function WrappingMul(x: u64, y: u64): u64 {
    (x * y) % U64_MODULUS
  }

  /** `v as u64` for an `i64`: the two's-complement bit pattern. */
  function AsU64(v: i64): (r: u64)
    ensures v >= 0 ==> r == v
    ensures v < 0 ==> r == v + U64_MODULUS
  {
    v % U64_MODULUS
  }

  function Pow256(n: nat): (r: nat)
    ensures r >= 1
  {
    if n == 0 then 1 else 256 * Pow256(n - 1)
  }

  /** The `n` low-order bytes of `x`, least significant first. */
  function LeBytes(x: nat, n: nat): (r: seq<u8>)
    ensures |r| == n
  {
    if n == 0 then [] else [x % 256] + LeBytes(x / 256, n - 1)
  }

  /** The number whose little-endian bytes are `bs`. */
  function FromLe(bs: seq<u8>): (r: nat)
    ensures r < Pow256(|bs|)
  {
    if bs == [] then 0 else bs[0] + 256 * FromLe(bs[1..])
  }

  lemma {:induction false} FromLeOfLeBytes(x: nat, n: nat)
    requires x < Pow256(n)
    ensures FromLe(LeBytes(x, n)) == x
  {
    if n > 0 {
      FromLeOfLeBytes(x / 256, n - 1);
      assert LeBytes(x, n)[1..] == LeBytes(x / 256, n - 1);
    }
  }

  lemma {:induction false} LeBytesOfFromLe(bs: seq<u8>)
    ensures LeBytes(FromLe(bs), |bs|) == bs
  {
    if bs != [] {
      var x := FromLe(bs);
      assert x % 256 == bs[0] && x / 256 == FromLe(bs[1..]);
      LeBytesOfFromLe(bs[1..]);
    }
  }

  /** Zero bytes read as the number 0. */
  lemma {:induction false} FromLeOfZeros(bs: seq<u8>)
    requires forall i :: 0 <= i < |bs| ==> bs[i] == 0
    ensures FromLe(bs) == 0
  {
    if bs != [] {
      FromLeOfZeros(bs[1..]);
    }
  }

  /** `u64::to_le_bytes`. */
  function ToLeBytes(x: u64): (r: seq<u8>)
    ensures |r| == 8 && FromLe(r) == x
  {
    FromLeOfLeBytes(x, 8);
    LeBytes(x, 8)
  }

  /** `u64::from_le_bytes` of an eight-byte slice. */
  function FromLeBytes(bs: seq<u8>): (r: u64)
    requires |bs| == 8
    ensures ToLeBytes(r) == bs
  {
    LeBytesOfFromLe(bs);
    FromLe(bs)
  }

  /** The byte string of a coefficient vector: each coefficient as eight little-endian bytes, in index order. */
  function Encode(s: seq<u64>): (r: seq<u8>)
    ensures |r| == 8 * |s|
  {
    if s == [] then [] else Encode(s[..|s| - 1]) + ToLeBytes(s[|s| - 1])
  }

  /** The coefficient vector of `n` coefficients read from `data`. */
  function Decode(data: seq<u8>, n: nat): (r: seq<u64>)
    requires |data| == 8 * n
    ensures |r| == n
  {
    seq(n, i requires 0 <= i < n => FromLeBytes(data[8 * i .. 8 * i + 8]))
  }

  /** Bytes `8i .. 8i+8` of the encoding are exactly coefficient `i`. */
  lemma {:induction false} EncodeAt(s: seq<u64>, i: nat)
    requires i < |s|
    ensures Encode(s)[8 * i .. 8 * i + 8] == ToLeBytes(s[i])
  {
    var init := s[..|s| - 1];
    assert Encode(s) == Encode(init) + ToLeBytes(s[|s| - 1]);
    if i < |s| - 1 {
      EncodeAt(init, i);
      assert init[i] == s[i];
    }
  }

  /** Decoding what was encoded gives back every coefficient. */
  lemma {:induction false} DecodeEncode(s: seq<u64>)
    ensures Decode(Encode(s), |s|) == s
  {
    var e := Encode(s);
    var d := Decode(e, |s|);
    forall i | 0 <= i < |s|
      ensures d[i] == s[i]
    {
      EncodeAt(s, i);
      assert d[i] == FromLeBytes(e[8 * i .. 8 * i + 8]);
    }
  }

  /** Dropping the last coefficient of a decoding is decoding all but the last eight bytes. */
  lemma DecodeInit(data: seq<u8>, n: nat)
    requires |data| == 8 * n && n > 0
    ensures Decode(data, n)[..n - 1] == Decode(data[..8 * (n - 1)], n - 1)
  {
    var d := Decode(data, n);
    var prefix := data[..8 * (n - 1)];
    forall i | 0 <= i < n - 1
      ensures d[i] == Decode(prefix, n - 1)[i]
    {
      assert prefix[8 * i .. 8 * i + 8] == data[8 * i .. 8 * i + 8];
    }
  }

  /** The last coefficient of a decoding is read from the last eight bytes. */
  lemma DecodeLast(data: seq<u8>, n: nat)
    requires |data| == 8 * n && n > 0
    ensures ToLeBytes(Decode(data, n)[n - 1]) == data[8 * (n - 1) ..]
  {
    assert data[8 * (n - 1) .. 8 * (n - 1) + 8] == data[8 * (n - 1) ..];
  }

  /** Encoding what was decoded gives back every byte. */
  lemma {:induction false} EncodeDecode(data: seq<u8>, n: nat)
    requires |data| == 8 * n
    ensures Encode(Decode(data, n)) == data
  {
    if n > 0 {
      var d := Decode(data, n);
      var prefix := data[..8 * (n - 1)];
      DecodeInit(data, n);
      EncodeDecode(prefix, n - 1);
      DecodeLast(data, n);
      calc {
        Encode(d);
        Encode(d[..n - 1]) + ToLeBytes(d[n - 1]);
        prefix + data[8 * (n - 1) ..];
        data;
      }
    }
  }

  /** Encodings are injective: two vectors with the same bytes are equal. */
  lemma EncodeInjective(s: seq<u64>, t: seq<u64>)
    requires Encode(s) == Encode(t)
    ensures s == t
  {
    assert |s| == |t|;
    DecodeEncode(s);
    DecodeEncode(t);
  }

  /**
   * The serialisation loop shared by `Cipher::serialize` and
   * `serialize_ciphertext`: start from an empty vector and extend it with the
   * little-endian bytes of each coefficient in turn.
   */
  method SerializeWords(s: seq<u64>) returns (out: seq<u8>)
    ensures out == Encode(s)
  {
    out := [];
    for i := 0 to |s|
      invariant out == Encode(s[..i])
    {
      assert s[..i + 1][..i] == s[..i];
      out := out + ToLeBytes(s[i]);
    }
    assert s[..|s|] == s;
  }

  /**
   * The deserialisation loop shared by `deserialize_ciphertext` and
   * `deserialize_and_decrypt`, run after their length check: a zeroed
   * coefficient array whose entry `i` is filled from bytes `8i .. 8i+8`.
   */
  method DeserializeWords(data: seq<u8>, n: nat) returns (s: seq<u64>)
    requires |data| == 8 * n
    ensures s == Decode(data, n)
    ensures Encode(s) == data
  {
    var coeffs := new u64[n];
    for i := 0 to n
      invariant coeffs[..i] == Decode(data, n)[..i]
    {
      coeffs[i] := FromLeBytes(data[8 * i .. 8 * i + 8]);
    }
    assert coeffs[..] == coeffs[..n];
    s := coeffs[..];
    EncodeDecode(data, n);
  }
}
