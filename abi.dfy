// The 32-byte big-endian word of the Solidity contract ABI ("Formal
// Specification of the Encoding"): what U256::to_big_endian writes into the
// 32-byte buffers of the call-data encoders, and how such a word reads back.
module Abi {
  import opened Types

  const WORD_SIZE: nat := 32

  /** 256^k: the number of distinct values k big-endian bytes can hold. */
  function Pow256(k: nat): (r: nat)
    ensures r > 0
  {
    if k == 0 then 1 else 256 * Pow256(k - 1)
  }

  /** The last `len` bytes of n written most significant byte first. */
  function ToBigEndian(n: nat, len: nat): (r: seq<byte>)
    ensures |r| == len
  {
    if len == 0 then [] else ToBigEndian(n / 256, len - 1) + [(n % 256) as byte]
  }

  /** The number whose big-endian bytes are s. */
  function FromBigEndian(s: seq<byte>): nat
  {
    if s == [] then 0 else FromBigEndian(s[..|s| - 1]) * 256 + s[|s| - 1]
  }

  lemma Pow256Word()
    ensures Pow256(WORD_SIZE) == TWO_POW_256
  {
    assert Pow256(8) == 0x1_0000_0000_0000_0000;
    assert Pow256(16) == 0x1_0000_0000_0000_0000_0000_0000_0000_0000 by { Pow256Add(8, 8); }
    Pow256Add(16, 16);
  }

  lemma {:induction false} Pow256Add(a: nat, b: nat)
    ensures Pow256(a + b) == Pow256(a) * Pow256(b)
  {
    if b > 0 {
      Pow256Add(a, b - 1);
    }
  }

  /** Reading back the bytes written for n gives n, when n fits in them. */
  lemma {:induction false} FromToBigEndian(n: nat, len: nat)
    requires n < Pow256(len)
    ensures FromBigEndian(ToBigEndian(n, len)) == n
  {
    if len > 0 {
      var s := ToBigEndian(n, len);
      assert s[..|s| - 1] == ToBigEndian(n / 256, len - 1);
      assert n / 256 < Pow256(len - 1);
      FromToBigEndian(n / 256, len - 1);
    }
  }

  /** Any byte string is the big-endian form of a value below 256^|s|. */
  lemma {:induction false} ToFromBigEndian(s: seq<byte>)
    ensures FromBigEndian(s) < Pow256(|s|)
    ensures ToBigEndian(FromBigEndian(s), |s|) == s
  {
    if s != [] {
      var init := s[..|s| - 1];
      ToFromBigEndian(init);
      var n := FromBigEndian(s);
      assert n / 256 == FromBigEndian(init) && n % 256 == s[|s| - 1];
      assert s == init + [s[|s| - 1]];
    }
  }

  /** U256::to_big_endian into a 32-byte buffer. */
  function EncodeWord(n: U256): (r: seq<byte>)
    ensures |r| == WORD_SIZE
    ensures FromBigEndian(r) == n
  {
    Pow256Word();
    FromToBigEndian(n, WORD_SIZE);
    ToBigEndian(n, WORD_SIZE)
  }
}
