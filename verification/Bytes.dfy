/** Bytes, 32-bit words in little-endian order, and the hash of a key. */
module Bytes {
  import opened Seqs

  type byte = b: int | 0 <= b < 256

  const U32_MAX := 0xffff_ffff

  type u32 = n: int | 0 <= n <= 0xffff_ffff

  /** cdb_pack: the low 32 bits of `n`, least significant byte first. */
  function Pack(n: nat): (bytes: seq<byte>)
    ensures |bytes| == 4
  {
    [n % 256, n / 256 % 256, n / 256 / 256 % 256, n / 256 / 256 / 256 % 256]
  }

  /** cdb_unpack. */
  function Unpack(bytes: seq<byte>): u32
    requires |bytes| == 4
  {
    var b3: int, b2: int, b1: int, b0: int := bytes[3], bytes[2], bytes[1], bytes[0];
    ((b3 * 256 + b2) * 256 + b1) * 256 + b0
  }

  lemma UnpackPack(n: nat)
    ensures Unpack(Pack(n)) == n % 0x1_0000_0000
  {
    var q1 := n / 256;
    var q2 := q1 / 256;
    var q3 := q2 / 256;
    Quotient(n, q3 / 256, Unpack(Pack(n)));
  }

  lemma Quotient(n: nat, q: nat, r: nat)
    requires n == 0x1_0000_0000 * q + r && r < 0x1_0000_0000
    ensures r == n % 0x1_0000_0000
  {
  }

  /** Unsigned 32-bit addition and subtraction. */
  function Add32(a: nat, b: nat): u32 {
    (a + b) % 0x1_0000_0000
  }

  lemma NoWrap(a: nat, b: nat)
    requires a + b <= U32_MAX
    ensures Add32(a, b) == a + b
  {
  }

  lemma WrapStep(x: nat, y: nat)
    ensures Add32(x % 0x1_0000_0000, y) == (x + y) % 0x1_0000_0000
    ensures Add32(x % 0x1_0000_0000, 0) == x % 0x1_0000_0000
  {
  }

  function Sub32(a: u32, b: u32): u32 {
    if a >= b then a - b else a - b + 0x1_0000_0000
  }

  /** Adding back what was subtracted gives the number, with or without a borrow. */
  lemma SubBack(a: u32, b: u32)
    ensures Add32(Sub32(a, b), b) == a
  {
  }

  /** The word stored at offset `pos` of an image. */
  function Word(image: seq<byte>, pos: nat): u32
    requires pos + 4 <= |image|
  {
    Unpack([image[pos], image[pos + 1], image[pos + 2], image[pos + 3]])
  }

  lemma WordPacked(image: seq<byte>, pos: nat, n: nat)
    requires Reads(image, pos, Pack(n))
    ensures Word(image, pos) == n % 0x1_0000_0000
  {
    ReadsSlice(image, pos, Pack(n));
    UnpackPack(n);
    assert image[pos..pos + 4] == [image[pos], image[pos + 1], image[pos + 2], image[pos + 3]];
  }

  lemma WordMoved(s: seq<byte>, i: nat, t: seq<byte>, j: nat)
    requires Agree(s, i, t, j, 4)
    ensures Word(s, i) == Word(t, j)
  {
    AgreeAt(s, i, t, j, 4, 1);
    AgreeAt(s, i, t, j, 4, 2);
    AgreeAt(s, i, t, j, 4, 3);
  }

  /**
   * The hash of a key: an arbitrary deterministic 32-bit function, of which cdb_hash and the
   * MurmurHash2 of CDB++ are two instances. Nothing below depends on which one it is.
   */
  const HASH: seq<byte> -> u32

  function Hash(key: seq<byte>): u32 {
    HASH(key)
  }
}
