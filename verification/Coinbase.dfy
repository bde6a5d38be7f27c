/** The byte strings that stand as parents of reward coins. */
module Coinbase {

  type byte = x: int | 0 <= x < 256

  function Pow256(k: nat): nat
  {
    if k == 0 then 1 else 256 * Pow256(k - 1)
  }

  /** Big-endian encoding in exactly `k` bytes. */
  function ToBytes(n: nat, k: nat): (r: seq<byte>)
    ensures |r| == k
  {
    if k == 0 then [] else ToBytes(n / 256, k - 1) + [n % 256]
  }

  function FromBytes(s: seq<byte>): nat
  {
    if s == [] then 0 else 256 * FromBytes(s[..|s| - 1]) + s[|s| - 1]
  }

  lemma {:induction false} BytesRoundTrip(n: nat, k: nat)
    requires n < Pow256(k)
    ensures FromBytes(ToBytes(n, k)) == n
  {
    if k > 0 {
      BytesRoundTrip(n / 256, k - 1);
      assert ToBytes(n, k)[..k - 1] == ToBytes(n / 256, k - 1);
    }
  }

  function PoolParentId(height: nat, genesis: seq<byte>): seq<byte>
    requires |genesis| == 32
  {
    genesis[..16] + ToBytes(height, 16)
  }

  function FarmerParentId(height: nat, genesis: seq<byte>): seq<byte>
    requires |genesis| == 32
  {
    genesis[16..] + ToBytes(height, 16)
  }

  /** An id says whose reward it stands for, by its half of the genesis challenge, and of which height. */
  lemma ParentIdTells(height: nat, genesis: seq<byte>)
    requires |genesis| == 32 && height < 0x1_0000_0000
    ensures var id := PoolParentId(height, genesis);
      |id| == 32 && id[..16] == genesis[..16] && FromBytes(id[16..]) == height
    ensures var id := FarmerParentId(height, genesis);
      |id| == 32 && id[..16] == genesis[16..] && FromBytes(id[16..]) == height
  {
    HeightsFit();
    BytesRoundTrip(height, 16);
    assert PoolParentId(height, genesis)[16..] == ToBytes(height, 16);
    assert FarmerParentId(height, genesis)[16..] == ToBytes(height, 16);
  }

  lemma HalvesEqual(a: seq<byte>, b: seq<byte>, h: nat, i: nat)
    requires |a| == |b| == 16 && h < Pow256(16) && i < Pow256(16)
    ensures a + ToBytes(h, 16) == b + ToBytes(i, 16) <==> a == b && h == i
  {
    BytesRoundTrip(h, 16);
    BytesRoundTrip(i, 16);
    var s, t := a + ToBytes(h, 16), b + ToBytes(i, 16);
    if s == t {
      assert a == s[..16] && b == t[..16];
      assert ToBytes(h, 16) == s[16..] && ToBytes(i, 16) == t[16..];
    }
  }

  /** A height's two parent ids determine it, and a pool and a farmer id coincide only at one height
      and only when the two halves of the genesis challenge are the same. */
  lemma RewardParentsDistinct(h: nat, i: nat, genesis: seq<byte>)
    requires |genesis| == 32 && h < 0x1_0000_0000 && i < 0x1_0000_0000
    ensures PoolParentId(h, genesis) == PoolParentId(i, genesis) <==> h == i
    ensures FarmerParentId(h, genesis) == FarmerParentId(i, genesis) <==> h == i
    ensures PoolParentId(h, genesis) == FarmerParentId(i, genesis) <==> genesis[..16] == genesis[16..] && h == i
  {
    HeightsFit();
    HalvesEqual(genesis[..16], genesis[..16], h, i);
    HalvesEqual(genesis[16..], genesis[16..], h, i);
    HalvesEqual(genesis[..16], genesis[16..], h, i);
  }

  lemma HeightsFit()
    ensures 0x1_0000_0000 <= Pow256(16)
  {
    assert Pow256(4) == 0x1_0000_0000;
    PowGrows(4, 16);
  }

  lemma {:induction false} PowGrows(j: nat, k: nat)
    requires j <= k
    ensures Pow256(j) <= Pow256(k)
  {
    if j < k { PowGrows(j, k - 1); }
  }
}
