/** One-shot cipher block chaining (section 6.2 of NIST SP 800-38A) and PKCS#7
    padding (section 6.3 of RFC 5652): the reference the streaming writers of
    pkg/encrypt are proved against. The block cipher itself is any pair of
    block functions in which decryption undoes encryption. */
module Cbc {
  import opened Sequences

  type Bytes = seq<bv8>

  const BLOCK: nat := 16

  type Block = b: Bytes | |b| == 16 witness seq(16, i => 0)

  datatype Cipher = Cipher(encrypt: Block -> Block, decrypt: Block -> Block) {
    ghost predicate Valid() {
      forall b: Block :: decrypt(encrypt(b)) == b
    }
  }

  function Xor(a: Block, b: Block): (r: Block)
    ensures forall i :: 0 <= i < BLOCK ==> r[i] == a[i] ^ b[i]
  {
    seq(BLOCK, i requires 0 <= i < BLOCK => a[i] ^ b[i])
  }

  lemma XorCancels(a: Block, b: Block)
    ensures Xor(Xor(a, b), b) == a
  {
    forall i | 0 <= i < BLOCK ensures Xor(Xor(a, b), b)[i] == a[i] {
      assert (a[i] ^ b[i]) ^ b[i] == a[i];
    }
  }

  predicate Whole(data: Bytes) {
    |data| % 16 == 0
  }

  /** The ciphertext of whole blocks, chained from iv. */
  function Encrypt(c: Cipher, iv: Block, data: Bytes): (r: Bytes)
    requires Whole(data)
    ensures |r| == |data|
    decreases |data|
  {
    if |data| == 0 then []
    else
      var block: Block := c.encrypt(Xor(data[..BLOCK], iv));
      block + Encrypt(c, block, data[BLOCK..])
  }

  /** The plaintext of whole blocks, chained from iv. */
  function Decrypt(c: Cipher, iv: Block, data: Bytes): (r: Bytes)
    requires Whole(data)
    ensures |r| == |data|
    decreases |data|
  {
    if |data| == 0 then []
    else Xor(c.decrypt(data[..BLOCK]), iv) + Decrypt(c, data[..BLOCK], data[BLOCK..])
  }

  /** The chaining value after data: its last block, or iv before the first. */
  function Chain(iv: Block, data: Bytes): Block
    requires Whole(data)
  {
    if |data| == 0 then iv else data[|data| - BLOCK..]
  }

  lemma {:induction false} DecryptInvertsEncrypt(c: Cipher, iv: Block, data: Bytes)
    requires c.Valid() && Whole(data)
    ensures Decrypt(c, iv, Encrypt(c, iv, data)) == data
    decreases |data|
  {
    if |data| == 0 {
    } else {
      var block: Block := c.encrypt(Xor(data[..BLOCK], iv));
      var rest := Encrypt(c, block, data[BLOCK..]);
      var all: Bytes := block + rest;
      assert all[..BLOCK] == block && all[BLOCK..] == rest;
      XorCancels(data[..BLOCK], iv);
      DecryptInvertsEncrypt(c, block, data[BLOCK..]);
      assert data[..BLOCK] + data[BLOCK..] == data;
    }
  }

  lemma CutLater(a: Bytes, b: Bytes)
    requires Whole(a) && |a| > 0
    ensures (a + b)[..BLOCK] == a[..BLOCK] && (a + b)[BLOCK..] == a[BLOCK..] + b
  {
  }

  lemma ChainLater(iv: Block, block: Block, rest: Bytes)
    requires Whole(rest)
    ensures Whole(block + rest) && Chain(iv, block + rest) == Chain(block, rest)
  {
  }

  /** Encrypting in two calls that share the chaining value is encrypting once. */
  lemma {:induction false} EncryptAppend(c: Cipher, iv: Block, a: Bytes, b: Bytes)
    requires Whole(a) && Whole(b)
    ensures Whole(a + b)
    ensures Encrypt(c, iv, a + b) == Encrypt(c, iv, a) + Encrypt(c, Chain(iv, Encrypt(c, iv, a)), b)
    decreases |a|
  {
    if |a| == 0 {
      assert a + b == b;
    } else {
      var block: Block := c.encrypt(Xor(a[..BLOCK], iv));
      var rest := Encrypt(c, block, a[BLOCK..]);
      CutLater(a, b);
      EncryptAppend(c, block, a[BLOCK..], b);
      ChainLater(iv, block, rest);
      Associate(block, rest, Encrypt(c, Chain(block, rest), b));
    }
  }

  lemma FirstBlock(c: Cipher, iv: Block, data: Bytes)
    requires Whole(data) && |data| >= 16
    ensures Encrypt(c, iv, data)[..16]
         == c.encrypt(seq(16, i requires 0 <= i < 16 => data[i] ^ iv[i]))
  {
    assert Xor(data[..BLOCK], iv) == seq(16, i requires 0 <= i < 16 => data[i] ^ iv[i]);
    assert Encrypt(c, iv, data)[..16] == c.encrypt(Xor(data[..BLOCK], iv));
  }

  /** Each block of ciphertext is the encryption of the plaintext block xored with the
      ciphertext block before it, the first with iv. */
  lemma EncryptedBlock(c: Cipher, iv: Block, before: Bytes, data: Bytes)
    requires Whole(before) && Whole(data) && |data| >= 16
    ensures var r, k := Encrypt(c, iv, before + data), |before|;
            var chained: Block := if k == 0 then iv else r[k - 16..k];
            r[k..k + 16] == c.encrypt(seq(16, i requires 0 <= i < 16 => data[i] ^ chained[i]))
  {
    var sealed := Encrypt(c, iv, before);
    var chain := Chain(iv, sealed);
    var rest := Encrypt(c, chain, data);
    EncryptAppend(c, iv, before, data);
    FirstBlock(c, chain, data);
    JoinedParts(sealed, rest);
  }

  lemma JoinedParts(a: Bytes, b: Bytes)
    requires |b| >= 16
    ensures (a + b)[|a|..|a| + 16] == b[..16]
    ensures |a| >= 16 ==> (a + b)[|a| - 16..|a|] == a[|a| - 16..]
  {
  }

  lemma {:induction false} DecryptAppend(c: Cipher, iv: Block, a: Bytes, b: Bytes)
    requires Whole(a) && Whole(b)
    ensures Whole(a + b)
    ensures Decrypt(c, iv, a + b) == Decrypt(c, iv, a) + Decrypt(c, Chain(iv, a), b)
    decreases |a|
  {
    if |a| == 0 {
      assert a + b == b;
    } else {
      assert (a + b)[..BLOCK] == a[..BLOCK] && (a + b)[BLOCK..] == a[BLOCK..] + b;
      DecryptAppend(c, a[..BLOCK], a[BLOCK..], b);
    }
  }

  // ---- PKCS#7 padding ----

  function PadLength(n: nat): (k: nat)
    ensures 1 <= k <= BLOCK && (n + k) % 16 == 0
  {
    BLOCK - n % 16
  }

  function Padding(k: nat): (r: Bytes)
    requires 1 <= k <= BLOCK
    ensures |r| == k && forall i :: 0 <= i < k ==> r[i] as int == k
  {
    seq(k, i => k as bv8)
  }

  function Pad(data: Bytes): (r: Bytes)
    ensures Whole(r) && |r| == BLOCK * (|data| / 16 + 1)
  {
    data + Padding(PadLength(|data|))
  }

  /** The last n bytes of the block all hold n. */
  ghost predicate PaddedBy(block: Bytes, n: nat) {
    1 <= n <= BLOCK <= |block| && forall i :: |block| - n <= i < |block| ==> block[i] as int == n
  }

  lemma PadIsPadded(data: Bytes)
    ensures PaddedBy(Pad(data), PadLength(|data|))
  {
  }

  /** Padding is injective: a padded text is the padding of one text only. */
  lemma PadUnique(data: Bytes, padded: Bytes, n: nat)
    requires Whole(padded) && PaddedBy(padded, n)
    ensures padded == Pad(data) <==> data == padded[..|padded| - n]
  {
    var d := padded[..|padded| - n];
    assert Pad(d) == padded by {
      assert PadLength(|d|) == n;
      forall i | |d| <= i < |padded| ensures Pad(d)[i] == padded[i] {
        assert padded[i] as int == n;
        assert (n as bv8) as int == n;
      }
    }
    if padded == Pad(data) {
      PadIsPadded(data);
      var last := |padded| - 1;
      assert padded[last] as int == n && Pad(data)[last] as int == PadLength(|data|);
      assert data == padded[..|data|];
    }
  }
}
