/** AES256CBC of pkg/encrypt/aes256cbc.go: setting up the writers, and what a
    whole stream becomes when it is cut into Write calls in any way at all.
    The key schedule is a parameter, `cipherOf`. */
module Aes256Cbc {
  import opened Cbc
  import opened CbcWriters

  datatype AES256CBC = AES256CBC(key: Bytes, iv: Bytes, prependIV: bool) {

    /** The IV that will be used: the configured one, or a random one. */
    function ChosenIV(random: Block): Block
      requires IVFits()
    {
      if |iv| == 0 then random else iv
    }

    /** NewCBCEncrypter takes an IV of one block. */
    predicate IVFits() {
      |iv| == 0 || |iv| == BLOCK
    }

    /** The writer to encrypt through, or null for a key of the wrong size. The
        IV goes to the output at once when it is to be prepended; one of a wrong
        length goes there too, and then setting up the cipher mode crashes. */
    method Encrypt(out: Sink, cipherOf: Bytes -> Cipher, random: Block) returns (w: EncryptWriter?, crash: bool)
      modifies out
      ensures crash <==> |key| == 32 && |iv| != 0 && |iv| != 16
      ensures w == null <==> |key| != 32 || crash
      ensures |key| != 32 ==> out.written == old(out.written)
      ensures crash ==> out.written == old(out.written) + if prependIV then iv else []
      ensures w != null ==>
                && fresh(w) && fresh(w.mode) && w.writer == out
                && w.Valid() && !w.closed && w.input == []
                && w.mode.cipher == cipherOf(key) && w.iv == (if |iv| == 0 then random else iv)
                && w.start == old(out.written) + if prependIV then w.iv else []
    {
      if |key| != 32 {
        return null, false;
      }
      var block := cipherOf(key);
      var v := iv;
      if |v| == 0 {
        v := random;
      }
      if prependIV {
        out.Write(v);
      }
      if |v| != BLOCK {
        return null, true;
      }
      var mode := new CbcEncrypter(block, v);
      crash := false;
      w := new EncryptWriter(out, mode);
    }

    method Decrypt(out: Sink, cipherOf: Bytes -> Cipher) returns (w: DecryptWriter?)
      ensures w == null <==> |key| != 32
      ensures w != null ==>
                && fresh(w) && w.writer == out && w.mode == null
                && w.Valid() && !w.closed && w.input == []
                && w.block == cipherOf(key) && w.start == out.written
    {
      if |key| != 32 {
        return null;
      }
      w := new DecryptWriter(out, cipherOf(key));
    }
  }

  function Concat(chunks: seq<Bytes>): Bytes {
    if chunks == [] then [] else chunks[0] + Concat(chunks[1..])
  }

  lemma {:induction false} ConcatLast(chunks: seq<Bytes>)
    requires chunks != []
    ensures Concat(chunks) == Concat(chunks[..|chunks| - 1]) + chunks[|chunks| - 1]
  {
    if |chunks| == 1 {
      assert chunks[1..] == [];
    } else {
      ConcatLast(chunks[1..]);
      assert chunks[..|chunks| - 1][0] == chunks[0];
      assert chunks[..|chunks| - 1][1..] == chunks[1..][..|chunks| - 2];
    }
  }

  /** Prefixes of the chunks grow by one chunk at a time. */
  lemma ConcatStep(chunks: seq<Bytes>, i: nat)
    requires i < |chunks|
    ensures Concat(chunks[..i + 1]) == Concat(chunks[..i]) + chunks[i]
  {
    ConcatLast(chunks[..i + 1]);
    assert chunks[..i + 1][..i] == chunks[..i];
  }

  /** A dump through the encrypter: the chunks are written in turn and the writer
      is closed twice, once by the archiver and once by the dump itself. The
      output depends on the chunks only through their concatenation. */
  method EncryptAll(aes: AES256CBC, cipherOf: Bytes -> Cipher, random: Block, chunks: seq<Bytes>)
    returns (out: Bytes)
    requires |aes.key| == 32 && aes.IVFits()
    ensures var iv := aes.ChosenIV(random);
            out == (if aes.prependIV then iv else [])
                   + Cbc.Encrypt(cipherOf(aes.key), iv, Pad(Concat(chunks)))
  {
    var sink := new Sink();
    var w, crash := aes.Encrypt(sink, cipherOf, random);
    for i := 0 to |chunks|
      invariant fresh(w) && fresh(w.mode) && w.Valid() && !w.closed
      invariant w.input == Concat(chunks[..i])
    {
      ConcatStep(chunks, i);
      var n := w.Write(chunks[i]);
    }
    assert chunks[..|chunks|] == chunks;
    w.Close();
    w.Close();
    out := sink.written;
  }

  /** Reading a stream back through the decrypter, cut into any chunks. */
  method DecryptAll(aes: AES256CBC, cipherOf: Bytes -> Cipher, chunks: seq<Bytes>)
    returns (r: CloseResult, out: Bytes)
    requires |aes.key| == 32
    ensures (r, out) == Decoded(cipherOf(aes.key), Concat(chunks))
  {
    var sink := new Sink();
    var w := aes.Decrypt(sink, cipherOf);
    for i := 0 to |chunks|
      invariant fresh(w) && fresh(w.Modes()) && w.Valid() && !w.closed
      invariant w.input == Concat(chunks[..i])
    {
      ConcatStep(chunks, i);
      var n := w.Write(chunks[i]);
    }
    assert chunks[..|chunks|] == chunks;
    r := w.Close();
    out := sink.written;
    assert w.start == [];
    assert w.input == Concat(chunks);
    assert r == Decoded(w.block, w.input).0;
    assert out == Decoded(w.block, w.input).1;
  }

  /** A plaintext unpads to the data exactly when it is the padding of the data. */
  lemma UnpadsExactly(plain: Bytes, data: Bytes)
    requires |plain| >= 16 && |plain| % 16 == 0
    ensures Unpad(plain) == (Ok, data) <==> plain == Pad(data)
    ensures Unpad(plain).0 != IncompleteFinalBlock
  {
    var n := plain[|plain| - 1] as int;
    if plain == Pad(data) {
      PadIsPadded(data);
    }
    if PaddedBy(plain, n) {
      PadUnique(data, plain, n);
    }
  }

  /** Decrypting what encryption wrote after its IV gives back the plaintext. */
  lemma RoundTrip(c: Cipher, iv: Block, data: Bytes)
    requires c.Valid()
    ensures Decoded(c, iv + Cbc.Encrypt(c, iv, Pad(data))) == (Ok, data)
  {
    var body := Cbc.Encrypt(c, iv, Pad(data));
    var stream := iv + body;
    var j := |stream| / 16 - 1;
    assert Front(stream) == iv && stream[16..16 + 16 * j] == body;
    DecryptInvertsEncrypt(c, iv, Pad(data));
    assert Plain(c, stream, j) == Pad(data);
    UnpadsExactly(Pad(data), data);
  }

  /** The data cut into pieces of the given sizes, and the rest. */
  function Cut(data: Bytes, sizes: seq<nat>): (chunks: seq<Bytes>)
    decreases |sizes|
  {
    if sizes == [] || sizes[0] > |data| then [data] else [data[..sizes[0]]] + Cut(data[sizes[0]..], sizes[1..])
  }

  lemma {:induction false} CutWhole(data: Bytes, sizes: seq<nat>)
    ensures Concat(Cut(data, sizes)) == data
    decreases |sizes|
  {
    if sizes == [] || sizes[0] > |data| {
      assert [data][1..] == [] && data + [] == data;
    } else {
      CutWhole(data[sizes[0]..], sizes[1..]);
      assert data[..sizes[0]] + data[sizes[0]..] == data;
      assert ([data[..sizes[0]]] + Cut(data[sizes[0]..], sizes[1..]))[1..] == Cut(data[sizes[0]..], sizes[1..]);
    }
  }

  function Sizes(chunks: seq<Bytes>): seq<nat> {
    if chunks == [] then [] else [|chunks[0]|] + Sizes(chunks[1..])
  }

  /** Every way to cut the data is a Cut, but for an empty piece at the end. */
  lemma {:induction false} EveryCut(chunks: seq<Bytes>)
    ensures Cut(Concat(chunks), Sizes(chunks)) == chunks + [[]]
  {
    if chunks != [] {
      EveryCut(chunks[1..]);
      var data, first := Concat(chunks), chunks[0];
      assert data[..|first|] == first && data[|first|..] == Concat(chunks[1..]);
      assert Sizes(chunks)[1..] == Sizes(chunks[1..]);
      assert [first] + (chunks[1..] + [[]]) == chunks + [[]];
    }
  }

  /** The whole way: any chunks written to the encrypter, closed twice; its output cut
      anew in any way, written to the decrypter and closed. The plaintext comes out,
      and Close reports no error. */
  method ThereAndBack(aes: AES256CBC, cipherOf: Bytes -> Cipher, random: Block, chunks: seq<Bytes>, sizes: seq<nat>)
    returns (r: CloseResult, out: Bytes)
    requires |aes.key| == 32 && aes.IVFits() && aes.prependIV && cipherOf(aes.key).Valid()
    ensures r == Ok && out == Concat(chunks)
  {
    var sealed := EncryptAll(aes, cipherOf, random, chunks);
    CutWhole(sealed, sizes);
    r, out := DecryptAll(aes, cipherOf, Cut(sealed, sizes));
    RoundTrip(cipherOf(aes.key), aes.ChosenIV(random), Concat(chunks));
  }

  /** Close accepts a stream exactly when it has an IV and at least one whole
      block more, and its plaintext is the padding of some text: the output. */
  lemma AcceptedExactlyWhenPadded(c: Cipher, stream: Bytes, data: Bytes)
    ensures Decoded(c, stream) == (Ok, data)
       <==> |stream| >= 32 && |stream| % 16 == 0 && Plain(c, stream, |stream| / 16 - 1) == Pad(data)
    ensures Decoded(c, stream).0 == IncompleteFinalBlock <==> |stream| < 32 || |stream| % 16 != 0
  {
    if |stream| >= 32 && |stream| % 16 == 0 {
      var plain := Plain(c, stream, |stream| / 16 - 1);
      assert |plain| == 16 * (|stream| / 16 - 1);
      UnpadsExactly(plain, data);
    }
  }
}
