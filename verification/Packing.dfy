/**
 Byte strings as they are hashed: Solidity's tight packing of the seven fields of an airdrop leaf.
 Keccak is never defined. It is a parameter, `Keccak`, of everything that hashes, and nothing is
 assumed of it; in particular it is not assumed to be injective.
 */
module Packing {
  import opened Common

  type Digest = d: Bytes | |d| == 32 witness seq(32, _ => 0)
  type Address = a: Bytes | |a| == 20 witness seq(20, _ => 0)
  type Keccak = Bytes -> Digest

  /** The number of values of an unsigned integer that is `width` bytes wide. */
  function Range(width: nat): (n: nat)
    ensures n > 0
  {
    if width == 0 then 1 else 256 * Range(width - 1)
  }

  function BigEndian(x: nat, width: nat): (b: Bytes)
    ensures |b| == width
  {
    if width == 0 then [] else BigEndian(x / 256, width - 1) + [x % 256]
  }

  /** The number that bytes stand for, the most significant first. */
  function FromBigEndian(b: Bytes): nat {
    if b == [] then 0 else FromBigEndian(b[..|b| - 1]) * 256 + b[|b| - 1]
  }

  /** A number that fits is packed as its big-endian bytes. */
  lemma {:induction false} BigEndianValue(x: nat, width: nat)
    requires x < Range(width)
    ensures FromBigEndian(BigEndian(x, width)) == x
  {
    if width > 0 {
      var b := BigEndian(x, width);
      assert b[..width - 1] == BigEndian(x / 256, width - 1);
      BigEndianValue(x / 256, width - 1);
    }
  }

  /** The fields that one airdrop leaf commits to, in the order in which they are packed. */
  datatype Leaf = Leaf(
    index: nat, stakeType: nat, contractAddress: Address, account: Address,
    duration: nat, rate: nat, amount: nat)

  /** The fields fit the widths they are packed to: ethers throws when one does not. */
  predicate Fits(leaf: Leaf) {
    && leaf.index < Range(32) && leaf.stakeType < 256
    && leaf.duration < Range(32) && leaf.rate < Range(32) && leaf.amount < Range(32)
  }

  function Pack(leaf: Leaf): (b: Bytes)
    requires Fits(leaf)
    ensures |b| == 169
  {
    BigEndian(leaf.index, 32) + [leaf.stakeType] + leaf.contractAddress + leaf.account +
    BigEndian(leaf.duration, 32) + BigEndian(leaf.rate, 32) + BigEndian(leaf.amount, 32)
  }

  /** Where each field is found in the packed bytes. */
  lemma PackSlices(leaf: Leaf)
    requires Fits(leaf)
    ensures var b := Pack(leaf);
            && b[..32] == BigEndian(leaf.index, 32) && b[32] == leaf.stakeType
            && b[33..53] == leaf.contractAddress && b[53..73] == leaf.account
            && b[73..105] == BigEndian(leaf.duration, 32)
            && b[105..137] == BigEndian(leaf.rate, 32)
            && b[137..] == BigEndian(leaf.amount, 32)
  {
    var i, d := BigEndian(leaf.index, 32), BigEndian(leaf.duration, 32);
    var r, a := BigEndian(leaf.rate, 32), BigEndian(leaf.amount, 32);
    var b := i + [leaf.stakeType] + leaf.contractAddress + leaf.account + d + r + a;
    assert Pack(leaf) == b;
  }

  /** No two leaves have the same preimage, so a leaf digest fixes all seven fields up to a collision. */
  lemma PackInjective(x: Leaf, y: Leaf)
    requires Fits(x) && Fits(y) && Pack(x) == Pack(y)
    ensures x == y
  {
    PackSlices(x);
    PackSlices(y);
    BigEndianValue(x.index, 32);
    BigEndianValue(y.index, 32);
    BigEndianValue(x.duration, 32);
    BigEndianValue(y.duration, 32);
    BigEndianValue(x.rate, 32);
    BigEndianValue(y.rate, 32);
    BigEndianValue(x.amount, 32);
    BigEndianValue(y.amount, 32);
  }

  lemma {:induction false} RangeProduct(a: nat, b: nat)
    ensures Range(a + b) == Range(a) * Range(b)
  {
    if a == 0 {
      assert Range(a + b) == 1 * Range(b);
    } else {
      RangeProduct(a - 1, b);
      assert 256 * (Range(a - 1) * Range(b)) == (256 * Range(a - 1)) * Range(b);
    }
  }

  /** Which leaves are packed: those whose numbers are below 2^256, and whose type is below 2^8. */
  lemma FitsExactly(leaf: Leaf)
    ensures var limit := 0x1_0000_0000_0000_0000_0000_0000_0000_0000_0000_0000_0000_0000_0000_0000_0000_0000;
            Fits(leaf) <==>
            && leaf.index < limit && leaf.stakeType < 256
            && leaf.duration < limit && leaf.rate < limit && leaf.amount < limit
  {
    assert Range(4) == 0x1_0000_0000;
    RangeProduct(4, 4);
    RangeProduct(8, 8);
    RangeProduct(16, 16);
    assert Range(8) == 0x1_0000_0000_0000_0000;
    assert Range(16) == 0x1_0000_0000_0000_0000_0000_0000_0000_0000;
  }
}
