// Cipher block chaining with PKCS#7 padding (section 6.2 of NIST SP 800-38A, section 6.3 of
// RFC 5652): functions on byte strings, the round trip, and the block loops that compute them.
module Cbc {
  import opened ByteStrings
  import opened AriaTables
  import opened Aria
  import opened AriaCipher
  import opened AriaReference

  const BLOCK_SIZE := 16

  // ---------- Padding ----------

  function PadLength(n: nat): (p: nat)
    ensures 1 <= p <= 16 && (n + p) % 16 == 0
  {
    if n % BLOCK_SIZE == 0 then BLOCK_SIZE else BLOCK_SIZE - n % BLOCK_SIZE
  }

  function Pad(data: Bytes): (r: Bytes)
    ensures |r| == |data| + PadLength(|data|)
  {
    data + seq(PadLength(|data|), _ => PadLength(|data|) as bv8)
  }

  // Whether the last byte gives a padding length and that many last bytes all hold it.
  predicate Padded(data: Bytes) {
    |data| > 0 && |data| % BLOCK_SIZE == 0 &&
    var b := data[|data| - 1] as nat;
    0 < b <= BLOCK_SIZE && forall i :: |data| - b <= i < |data| ==> data[i] == data[|data| - 1]
  }

  // Ill-formed padding gives the empty string, as an empty message does.
  function Unpad(data: Bytes): Bytes {
    if Padded(data) then data[..|data| - data[|data| - 1] as nat] else []
  }

  lemma UnpadPad(data: Bytes)
    ensures Padded(Pad(data)) && Unpad(Pad(data)) == data
  {
    NarrowWiden(PadLength(|data|));
  }

  // What unpadding accepts is exactly what padding produces.
  lemma PaddedIffPad(data: Bytes)
    ensures Padded(data) <==> exists x: Bytes :: data == Pad(x)
  {
    if Padded(data) { PaddedIsPad(data); }
    if x: Bytes :| data == Pad(x) { UnpadPad(x); }
  }

  lemma PaddedIsPad(data: Bytes)
    requires Padded(data)
    ensures data == Pad(Unpad(data))
  {
    var b := data[|data| - 1];
    var n, x := b as nat, Unpad(data);
    assert |x| == |data| - n;
    PadLengthOf(|data|, n);
    WidenNarrow(b);
  }

  lemma PadLengthOf(total: nat, n: nat)
    requires total % 16 == 0 && 1 <= n <= 16 && n <= total
    ensures PadLength(total - n) == n
  {}

  // The padding is 1 to 16 bytes, fills the last block, and each of its bytes is its length.
  lemma PadIsExact(data: Bytes, r: Bytes)
    ensures r == Pad(data)
       <==> |data| < |r| <= |data| + 16 && |r| % 16 == 0 && r[..|data|] == data
            && forall i :: |data| <= i < |r| ==> r[i] as int == |r| - |data|
  {
    var n := |r| - |data|;
    NarrowWiden(PadLength(|data|));
    if 1 <= n <= 16 && |r| % 16 == 0 && r[..|data|] == data && forall i :: |data| <= i < |r| ==> r[i] as int == n {
      PadLengthOf(|r|, n);
      forall i | |data| <= i < |r| ensures r[i] == Pad(data)[i] { WidenNarrow(r[i]); }
      assert r == Pad(data);
    }
  }

  // ---------- Chaining ----------

  function Chain(ks: seq<Block>, prev: Block, data: Bytes): (r: Bytes)
    requires |ks| > 1 && |data| % 16 == 0
    ensures |r| == |data|
    decreases |data|
  {
    if data == [] then []
    else var c := Cipher(Xor(data[..16], prev), ks); c + Chain(ks, c, data[16..])
  }

  function Unchain(ds: seq<Block>, prev: Block, data: Bytes): (r: Bytes)
    requires |ds| > 1 && |data| % 16 == 0
    ensures |r| == |data|
    decreases |data|
  {
    if data == [] then []
    else Xor(Cipher(data[..16], ds), prev) + Unchain(ds, data[..16], data[16..])
  }

  lemma {:induction false} UnchainChain(ks: seq<Block>, prev: Block, data: Bytes)
    requires |ks| > 1 && |ks| % 2 == 1 && |data| % 16 == 0
    ensures Unchain(DecryptionKeys(ks), prev, Chain(ks, prev, data)) == data
    decreases |data|
  {
    hide Cipher; hide Xor; hide DecryptionKeys;
    if data != [] {
      var x := Xor(data[..16], prev);
      var c := Cipher(x, ks);
      var rest: Bytes := Chain(ks, c, data[16..]);
      var all: Bytes := Chain(ks, prev, data);
      assert all[..16] == c && all[16..] == rest;
      DecipherEncipher(x, ks);
      XorCancel(data[..16], prev);
      UnchainChain(ks, c, data[16..]);
      assert data == data[..16] + data[16..];
    }
  }

  // ---------- The algorithm ----------

  function EncryptMessage(key: Bytes, iv: Block, data: Bytes): Bytes
    requires LegalKey(key)
  {
    iv + Chain(EncryptionKeys(key), iv, Pad(data))
  }

  function Decipher(key: Bytes, iv: Block, body: Bytes): Bytes
    requires LegalKey(key) && |body| % 16 == 0
  {
    Unchain(DecryptionKeys(EncryptionKeys(key)), iv, body)
  }

  // A ciphertext that is too short, ragged or wrongly padded deciphers to nothing.
  function DecryptMessage(key: Bytes, data: Bytes): Bytes
    requires LegalKey(key)
  {
    if |data| < 2 * BLOCK_SIZE || (|data| - BLOCK_SIZE) % BLOCK_SIZE != 0 then []
    else
      Unpad(Decipher(key, data[..16], data[16..]))
  }

  // For every legal key, initialisation vector and message, the empty one included.
  lemma MessageRoundTrip(key: Bytes, iv: Block, data: Bytes)
    requires LegalKey(key)
    ensures DecryptMessage(key, EncryptMessage(key, iv, data)) == data
  {
    hide EncryptionKeys; hide Pad; hide Unpad; hide Chain; hide Unchain;
    var ks := EncryptionKeys(key);
    var c := EncryptMessage(key, iv, data);
    assert c[..16] == iv && c[16..] == Chain(ks, iv, Pad(data));
    UnchainChain(ks, iv, Pad(data));
    UnpadPad(data);
  }

  // ---------- The chain, block by block ----------

  function BlockAt(x: Bytes, b: nat): Block
    requires 16 * b + 16 <= |x|
  {
    x[16 * b..16 * b + 16]
  }

  // Block b + 1 of out enciphers block b of data combined with block b of out.
  predicate Link(ks: seq<Block>, data: Bytes, out: Bytes, b: nat)
    requires |ks| > 1 && 16 * b + 16 <= |data| && |out| == |data| + 16
  {
    BlockAt(out, b + 1) == Cipher(Xor(BlockAt(data, b), BlockAt(out, b)), ks)
  }

  ghost predicate Linked(ks: seq<Block>, data: Bytes, out: Bytes)
    requires |ks| > 1 && |data| % 16 == 0 && |out| == |data| + 16
  {
    forall b: nat :: b < |data| / 16 ==> Link(ks, data, out, b)
  }

  // Every block of out is a deciphered block of data with the block of data before it.
  ghost predicate Unlinked(ds: seq<Block>, data: Bytes, out: Bytes)
    requires |ds| > 1 && |data| % 16 == 0 && |data| == |out| + 16
  {
    forall b: nat :: b < |out| / 16 ==>
      BlockAt(out, b) == Xor(Cipher(BlockAt(data, b + 1), ds), BlockAt(data, b))
  }

  lemma BlockLater(x: Bytes, b: nat)
    requires 16 * b + 32 <= |x|
    ensures BlockAt(x[16..], b) == BlockAt(x, b + 1)
  {}

  lemma {:induction false} ChainIsLinked(ks: seq<Block>, prev: Block, data: Bytes, out: Bytes)
    requires |ks| > 1 && |data| % 16 == 0 && |out| == |data| + 16 && out[..16] == prev
    ensures Linked(ks, data, out) <==> out == prev + Chain(ks, prev, data)
    decreases |data|
  {
    hide Cipher; hide Xor;
    if data == [] {
      assert out == prev + [];
    } else {
      var c := Cipher(Xor(data[..16], prev), ks);
      var rest: Bytes := Chain(ks, c, data[16..]);
      assert Chain(ks, prev, data) == c + rest;
      assert BlockAt(data, 0) == data[..16] && BlockAt(out, 0) == prev;
      LinkedLater(ks, data, out);
      if BlockAt(out, 1) == c {
        assert out[16..][..16] == c;
        ChainIsLinked(ks, c, data[16..], out[16..]);
        assert out == prev + out[16..];
      } else {
        assert (prev + (c + rest))[16..32] == c;
      }
    }
  }

  lemma LinkedLater(ks: seq<Block>, data: Bytes, out: Bytes)
    requires |ks| > 1 && |data| % 16 == 0 && |out| == |data| + 16 && data != []
    ensures Linked(ks, data, out) <==> Link(ks, data, out, 0) && Linked(ks, data[16..], out[16..])
  {
    hide Link;
    var data', out' := data[16..], out[16..];
    forall b: nat | b < |data'| / 16 ensures Link(ks, data', out', b) == Link(ks, data, out, b + 1) {
      LinkLater(ks, data, out, b);
    }
    if Linked(ks, data', out') && Link(ks, data, out, 0) {
      forall b: nat | b < |data| / 16 ensures Link(ks, data, out, b) {
        if b > 0 { LinkLater(ks, data, out, b - 1); }
      }
    }
  }

  lemma LinkLater(ks: seq<Block>, data: Bytes, out: Bytes, b: nat)
    requires |ks| > 1 && 16 * b + 32 <= |data| && |out| == |data| + 16
    ensures Link(ks, data[16..], out[16..], b) == Link(ks, data, out, b + 1)
  {
    hide Cipher; hide Xor; hide BlockAt;
    BlockLater(data, b);
    BlockLater(out, b);
    BlockLater(out, b + 1);
  }

  lemma {:induction false} UnchainAt(ds: seq<Block>, prev: Block, data: Bytes, b: nat)
    requires |ds| > 1 && |data| % 16 == 0 && 16 * b + 16 <= |data|
    ensures BlockAt(Unchain(ds, prev, data), b) == Xor(Cipher(BlockAt(data, b), ds), BlockAt(prev + data, b))
    decreases b
  {
    hide Cipher; hide Xor;
    var first := Xor(Cipher(data[..16], ds), prev);
    var rest: Bytes := Unchain(ds, data[..16], data[16..]);
    assert Unchain(ds, prev, data) == first + rest;
    if b == 0 {
      assert (first + rest)[..16] == first && (prev + data)[..16] == prev;
    } else {
      UnchainAt(ds, data[..16], data[16..], b - 1);
      assert BlockAt(first + rest, b) == BlockAt(rest, b - 1);
      assert data[..16] + data[16..] == data;
      assert BlockAt(prev + data, b) == BlockAt(data, b - 1) && BlockAt(data[16..], b - 1) == BlockAt(data, b);
    }
  }

  // The ciphertext is the one that starts with the initialisation vector and whose every later
  // block enciphers a block of the padded message combined with the ciphertext block before it.
  lemma EncryptIsExact(key: Bytes, iv: Block, data: Bytes, out: Bytes)
    requires LegalKey(key)
    ensures out == EncryptMessage(key, iv, data) <==>
              |out| == |Pad(data)| + 16 && out[..16] == iv && Linked(EncryptionKeys(key), Pad(data), out)
  {
    hide EncryptionKeys; hide Linked; hide Chain;
    if |out| == |Pad(data)| + 16 && out[..16] == iv { ChainIsLinked(EncryptionKeys(key), iv, Pad(data), out); }
  }

  // A ciphertext shorter than two blocks or not of whole blocks gives nothing; from any other,
  // what is unpadded is, block by block, a deciphered block combined with the ciphertext block
  // before it, the initialisation vector being the first of these.
  lemma DecryptIsExact(key: Bytes, data: Bytes, plain: Bytes)
    requires LegalKey(key)
    ensures |data| < 32 || |data| % 16 != 0 ==> DecryptMessage(key, data) == []
    ensures |data| >= 32 && |data| % 16 == 0 && |plain| + 16 == |data|
            && Unlinked(DecryptionKeys(EncryptionKeys(key)), data, plain)
            ==> DecryptMessage(key, data) == Unpad(plain)
  {
    hide EncryptionKeys; hide DecryptionKeys; hide Unpad; hide Unchain; hide Cipher; hide Xor;
    var ds := DecryptionKeys(EncryptionKeys(key));
    if |data| >= 32 && |data| % 16 == 0 && |plain| + 16 == |data| && Unlinked(ds, data, plain) {
      var x: Bytes := Unchain(ds, data[..16], data[16..]);
      assert data[..16] + data[16..] == data;
      forall b: nat | b < |plain| / 16 ensures BlockAt(x, b) == BlockAt(plain, b) {
        UnchainAt(ds, data[..16], data[16..], b);
        BlockLater(data, b);
      }
      SameBlocks(x, plain);
    }
  }

  lemma SameBlocks(x: Bytes, y: Bytes)
    requires |x| == |y| && |x| % 16 == 0
    requires forall b: nat :: b < |x| / 16 ==> BlockAt(x, b) == BlockAt(y, b)
    ensures x == y
  {
    forall i | 0 <= i < |x| ensures x[i] == y[i] {
      assert x[i] == BlockAt(x, i / 16)[i % 16] && y[i] == BlockAt(y, i / 16)[i % 16];
    }
  }

  method Pkcs7Pad(data: Bytes) returns (out: Bytes)
    ensures out == Pad(data)
  {
    var rem := |data| % BLOCK_SIZE;
    var padLen := if rem == 0 then BLOCK_SIZE else BLOCK_SIZE - rem;
    out := data + seq(padLen, _ => padLen as bv8);
  }

  method Pkcs7Unpad(data: Bytes) returns (out: Bytes)
    ensures out == Unpad(data)
  {
    var sz := |data|;
    if sz == 0 || sz % BLOCK_SIZE != 0 { return []; }
    var padByte := data[sz - 1];
    if padByte == 0 || padByte > 16 {
      return [];
    }
    var n := padByte as nat;
    var i := 0;
    while i < n
      invariant 0 <= i <= n
      invariant forall j :: sz - i <= j < sz ==> data[j] == padByte
    {
      if data[sz - 1 - i] != padByte { return []; }
      i := i + 1;
    }
    out := data[..sz - n];
  }

  class ARIAAlgorithm {
    const key: array<bv8>

    constructor (k: Bytes)
      ensures key[..] == k && fresh(key)
    {
      var a := new bv8[|k|](i requires 0 <= i < |k| => k[i]);
      key := a;
      new;
      assert key[..] == k;
    }

    method Encrypt(iv: Block, data: Bytes) returns (out: Bytes)
      requires LegalKey(key[..])
      ensures out == EncryptMessage(key[..], iv, data)
    {
      hide Cipher; hide Xor; hide EncryptionKeys; hide Pad; hide LegalKey;
      var padded := Pkcs7Pad(data);
      assert |padded| % 16 == 0;
      var roundKeys := new bv8[16 * ((8 * key.Length + 256) / 32 + 1)];
      var R := EncKeySetup(key, roundKeys);
      ghost var ks := EncryptionKeys(key[..]);
      out := iv;
      var prev: Block := iv;
      var bi := 0;
      var xored, cipherBlock := new bv8[16], new bv8[16];
      while bi < |padded| / BLOCK_SIZE
        modifies xored, cipherBlock
        invariant 0 <= bi <= |padded| / BLOCK_SIZE
        invariant out + Chain(ks, prev, padded[16 * bi..]) == EncryptMessage(key[..], iv, data)
      {
        ghost var rest: Bytes := padded[16 * bi..];
        XorBlocks(padded[16 * bi..16 * bi + 16], prev, xored);
        assert xored[..16] == xored[..];
        Crypt(xored, R, roundKeys, cipherBlock, ks);
        assert rest[..16] == padded[16 * bi..16 * bi + 16] && rest[16..] == padded[16 * (bi + 1)..];
        assert rest != [] && Chain(ks, prev, rest) == cipherBlock[..] + Chain(ks, cipherBlock[..], rest[16..]);
        out := out + cipherBlock[..];
        prev := cipherBlock[..];
        bi := bi + 1;
      }
    }

    method Decrypt(data: Bytes) returns (out: Bytes)
      requires LegalKey(key[..])
      ensures out == DecryptMessage(key[..], data)
    {
      hide Cipher; hide Xor; hide EncryptionKeys; hide DecryptionKeys; hide Unpad; hide LegalKey;
      if |data| < 2 * BLOCK_SIZE || (|data| - BLOCK_SIZE) % BLOCK_SIZE != 0 { return []; }
      var roundKeys := new bv8[16 * ((8 * key.Length + 256) / 32 + 1)];
      var R := DecKeySetup(key, roundKeys);
      ghost var ds := DecryptionKeys(EncryptionKeys(key[..]));
      var decrypted: Bytes := [];
      var prev: Block := data[..16];
      var bi := 1;
      var cblock, interm := new bv8[16], new bv8[16];
      while bi < |data| / BLOCK_SIZE
        modifies cblock, interm
        invariant 1 <= bi <= |data| / BLOCK_SIZE
        invariant decrypted + Unchain(ds, prev, data[16 * bi..]) == Unchain(ds, data[..16], data[16..])
      {
        ghost var rest: Bytes := data[16 * bi..];
        var c: Block := data[16 * bi..16 * bi + 16];
        Load(c, cblock);
        assert cblock[..16] == cblock[..];
        Crypt(cblock, R, roundKeys, interm, ds);
        assert rest[..16] == c && rest[16..] == data[16 * (bi + 1)..];
        assert rest != [] && Unchain(ds, prev, rest) == Xor(interm[..], prev) + Unchain(ds, c, rest[16..]);
        decrypted := decrypted + Xor(interm[..], prev);
        prev := c;
        bi := bi + 1;
      }
      assert 16 * bi == |data| && data[16 * bi..] == [];
      assert decrypted == Unchain(ds, data[..16], data[16..]);
      out := Pkcs7Unpad(decrypted);
    }
  }

  method XorBlocks(a: Block, b: Block, o: array<bv8>)
    requires o.Length == 16
    modifies o
    ensures o[..] == Xor(a, b)
  {
    hide X;
    var j := 0;
    while j < 16
      invariant 0 <= j <= 16
      invariant forall k :: 0 <= k < j ==> o[k] == X(a[k], b[k])
    {
      o[j] := X(a[j], b[j]);
      j := j + 1;
    }
  }

  method Load(a: Block, o: array<bv8>)
    requires o.Length == 16
    modifies o
    ensures o[..] == a
  {
    forall j | 0 <= j < 16 { o[j] := a[j]; }
  }
}
