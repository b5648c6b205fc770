// Value types shared by the whole model: the optional and fallible results
// the Rust code expresses with Option and anyhow::Result, and the ethers
// primitives (bytes, 20-byte addresses, 256-bit unsigned integers).
module Types {

  datatype Option<+T> = None | Some(value: T)

  /** An anyhow::Result: the model keeps only the error's message. */
  datatype Result<+T> = Ok(value: T) | Err(message: string)

  type byte = b: int | 0 <= b < 256

  /** An ethers Address: exactly 20 bytes. */
  type Address = s: seq<byte> | |s| == 20 witness seq(20, _ => 0)

  /** 2^256, the bound of ethers' U256. */
  const TWO_POW_256: nat := 0x1_0000_0000_0000_0000_0000_0000_0000_0000_0000_0000_0000_0000_0000_0000_0000_0000

  type U256 = n: nat | n < TWO_POW_256

  /** 2^64, the bound of Rust's u64. */
  const TWO_POW_64: nat := 0x1_0000_0000_0000_0000

  type U64 = n: nat | n < TWO_POW_64

  /** A u64 product as a release build computes it: wrapped modulo 2^64. */
  function WrapU64(n: nat): (r: U64)
    ensures n < TWO_POW_64 ==> r == n
    ensures (r - n) % TWO_POW_64 == 0
  {
    n % TWO_POW_64
  }

  const TEN_POW_9: nat := 1_000_000_000
  const TEN_POW_18: nat := 1_000_000_000_000_000_000
}
