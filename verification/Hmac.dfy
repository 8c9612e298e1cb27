/** HMAC-SHA256 as the service computes it, against section 2 of RFC 2104. */
module Hmac {
  import opened Sha256

  const BLOCK := 64

  /** The key as the definition uses it: hashed when longer than a block, then filled up with zeros. */
  function KeyBlock(key: seq<Byte>): (r: seq<Byte>)
    ensures |r| == BLOCK
  {
    var short := if |key| > BLOCK then Hash(key) else key;
    short + Zeros(BLOCK - |short|)
  }

  function Xor(x: Byte, y: Byte): Byte {
    x ^ y
  }

  function Masked(block: seq<Byte>, pad: Byte): (r: seq<Byte>)
    ensures |r| == |block|
  {
    seq(|block|, i requires 0 <= i < |block| => Xor(pad, block[i]))
  }

  /** H(K xor opad, H(K xor ipad, text)). */
  function Authenticator(key: seq<Byte>, msg: seq<Byte>): (r: seq<Byte>)
    ensures |r| == 32
  {
    Hash(Masked(KeyBlock(key), 0x5c) + Hash(Masked(KeyBlock(key), 0x36) + msg))
  }

  method PrepareKey(key: seq<Byte>) returns (k: array<Byte>)
    ensures fresh(k) && k[..] == KeyBlock(key)
  {
    hide Hash;
    k := new Byte[BLOCK](_ => 0);
    var short := key;
    if |key| > BLOCK {
      short := Digest(key);
    }
    for i := 0 to |short|
      invariant fresh(k)
      invariant k[..] == short[..i] + Zeros(BLOCK - i)
    {
      k[i] := short[i];
    }
    assert short[..|short|] == short;
  }

  /** Xors the key into both pads, byte by byte. */
  method MaskPads(k: array<Byte>) returns (ipad: array<Byte>, opad: array<Byte>)
    requires k.Length == BLOCK
    ensures ipad[..] == Masked(k[..], 0x36) && opad[..] == Masked(k[..], 0x5c)
  {
    hide Xor;
    ipad := new Byte[BLOCK](_ => 0x36);
    opad := new Byte[BLOCK](_ => 0x5c);
    ghost var block := k[..];
    for i := 0 to BLOCK
      invariant fresh(ipad) && fresh(opad) && ipad != opad
      invariant forall j :: 0 <= j < BLOCK ==> ipad[j] == if j < i then Xor(0x36, block[j]) else 0x36
      invariant forall j :: 0 <= j < BLOCK ==> opad[j] == if j < i then Xor(0x5c, block[j]) else 0x5c
    {
      ipad[i] := Xor(ipad[i], k[i]);
      opad[i] := Xor(opad[i], k[i]);
    }
  }

  method HmacSha256(key: seq<Byte>, msg: seq<Byte>) returns (out: seq<Byte>)
    ensures out == Authenticator(key, msg)
  {
    hide Hash, KeyBlock, Masked;
    var k := PrepareKey(key);
    var ipad, opad := MaskPads(k);
    var inner := Digest(ipad[..] + msg);
    out := Digest(opad[..] + inner);
  }

  /** Keys of at most one block are told apart exactly up to trailing zeros. */
  lemma ShortKeysAgreeIff(a: seq<Byte>, b: seq<Byte>)
    requires |a| <= |b| <= BLOCK
    ensures KeyBlock(a) == KeyBlock(b) <==> b == a + Zeros(|b| - |a|)
  {
    hide Hash;
    if KeyBlock(a) == KeyBlock(b) {
      assert KeyBlock(b)[..|b|] == b && KeyBlock(a)[..|b|] == a + Zeros(|b| - |a|);
    }
  }
}
