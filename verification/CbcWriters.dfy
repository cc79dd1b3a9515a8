/** The streaming writers of pkg/encrypt/aes256cbc.go and the salt-stripping
    reader of pkg/encrypt/pbkdf2aes256cbc.go, over the reference of module Cbc.
    Each writer keeps in the ghost field `input` all bytes it was ever given;
    `Valid()` makes every real field a function of that total, so that no
    contract below can depend on how the bytes were cut into Write calls. */
module CbcWriters {
  import opened Cbc
  import opened Sequences

  datatype CloseResult = Ok | IncompleteFinalBlock | InvalidPadding | InvalidPaddingContent

  /** io.Writer at the far end: everything written so far. */
  class Sink {
    var written: Bytes

    constructor ()
      ensures written == []
    {
      written := [];
    }

    method Write(p: Bytes)
      modifies this
      ensures written == old(written) + p
    {
      written := written + p;
    }
  }

  /** cipher.BlockMode in the encrypting direction: remembers the chaining value. */
  class CbcEncrypter {
    const cipher: Cipher
    var iv: Block

    constructor (cipher: Cipher, iv: Block)
      ensures this.cipher == cipher && this.iv == iv
    {
      this.cipher, this.iv := cipher, iv;
    }

    method CryptBlocks(src: Bytes) returns (dst: Bytes)
      requires Whole(src)
      modifies this
      ensures dst == Encrypt(cipher, old(iv), src) && iv == Chain(old(iv), dst)
    {
      dst := Encrypt(cipher, iv, src);
      iv := Chain(iv, dst);
    }
  }

  /** cipher.BlockMode in the decrypting direction. */
  class CbcDecrypter {
    const cipher: Cipher
    var iv: Block

    constructor (cipher: Cipher, iv: Block)
      ensures this.cipher == cipher && this.iv == iv
    {
      this.cipher, this.iv := cipher, iv;
    }

    method CryptBlocks(src: Bytes) returns (dst: Bytes)
      requires Whole(src)
      modifies this
      ensures dst == Decrypt(cipher, old(iv), src) && iv == Chain(old(iv), src)
    {
      dst := Decrypt(cipher, iv, src);
      iv := Chain(iv, src);
    }
  }

  /** Length of the longest prefix of n bytes made of whole blocks. */
  function WholePrefix(n: nat): (k: nat)
    ensures k <= n < k + BLOCK && k % 16 == 0
  {
    n - n % 16
  }

  /** The bytes past the last whole block. */
  function Tail(input: Bytes): (r: Bytes)
    ensures |r| < BLOCK
  {
    input[WholePrefix(|input|)..]
  }

  /** The ciphertext of the longest whole-block prefix. */
  function Image(c: Cipher, iv: Block, input: Bytes): (r: Bytes)
    ensures Whole(r)
  {
    Encrypt(c, iv, input[..WholePrefix(|input|)])
  }

  lemma WholePrefixUnique(n: nat, k: nat)
    requires k <= n < k + BLOCK && k % 16 == 0
    ensures WholePrefix(n) == k
  {
  }

  /** Feeding less than what completes a block changes the tail only. */
  lemma FillPart(c: Cipher, iv: Block, input: Bytes, fed: Bytes)
    requires |Tail(input)| + |fed| < BLOCK
    ensures Tail(input + fed) == Tail(input) + fed
    ensures Image(c, iv, input + fed) == Image(c, iv, input)
  {
    var k := WholePrefix(|input|);
    WholePrefixUnique(|input + fed|, k);
    assert (input + fed)[..k] == input[..k];
  }

  /** Feeding exactly what completes the block extends the ciphertext by that
      block and empties the tail. */
  lemma FillBlock(c: Cipher, iv: Block, input: Bytes, fed: Bytes)
    requires |Tail(input)| + |fed| == BLOCK
    ensures Tail(input + fed) == []
    ensures Image(c, iv, input + fed)
         == Image(c, iv, input) + Encrypt(c, Chain(iv, Image(c, iv, input)), Tail(input) + fed)
  {
    var k := WholePrefix(|input|);
    WholePrefixUnique(|input + fed|, k + BLOCK);
    assert (input + fed)[..k + BLOCK] == input[..k] + (Tail(input) + fed);
    EncryptAppend(c, iv, input[..k], Tail(input) + fed);
  }

  /** Padding the tail and encrypting it completes the one-shot ciphertext. */
  lemma FillPadding(c: Cipher, iv: Block, input: Bytes, padding: Bytes)
    requires Pad(input) == input + padding
    ensures Whole(Tail(input) + padding)
    ensures Encrypt(c, iv, Pad(input))
         == Image(c, iv, input) + Encrypt(c, Chain(iv, Image(c, iv, input)), Tail(input) + padding)
  {
    var k := WholePrefix(|input|);
    assert Pad(input) == input[..k] + (Tail(input) + padding);
    WholeDifference(|Pad(input)|, k);
    EncryptAppend(c, iv, input[..k], Tail(input) + padding);
  }

  lemma WholeDifference(n: nat, k: nat)
    requires k <= n && n % 16 == 0 && k % 16 == 0
    ensures (n - k) % 16 == 0
  {
  }

  /** Two consecutive chaining values are one: the last block of a + b. */
  lemma ChainAppend(iv: Block, a: Bytes, b: Bytes)
    requires Whole(a) && Whole(b)
    ensures Whole(a + b) && Chain(Chain(iv, a), b) == Chain(iv, a + b)
  {
    if |b| == 0 {
      assert a + b == a;
    }
  }

  class EncryptWriter {
    const writer: Sink
    const mode: CbcEncrypter
    var buf: Bytes
    var closed: bool
    ghost const iv: Block
    ghost const start: Bytes
    ghost var input: Bytes

    ghost predicate Valid()
      reads this, writer, mode
    {
      if closed then writer.written == start + Encrypt(mode.cipher, iv, Pad(input))
      else
        && writer.written == start + Image(mode.cipher, iv, input)
        && buf == Tail(input)
        && mode.iv == Chain(iv, Image(mode.cipher, iv, input))
    }

    constructor (writer: Sink, mode: CbcEncrypter)
      ensures Valid() && !closed && input == []
      ensures this.writer == writer && this.mode == mode
      ensures iv == mode.iv && start == writer.written
    {
      this.writer, this.mode := writer, mode;
      this.buf, this.closed := [], false;
      this.iv, this.start, this.input := mode.iv, writer.written, [];
    }

    /** Buffers p, encrypting each block as it fills. */
    method Write(p: Bytes) returns (total: nat)
      requires Valid() && !closed
      modifies this, writer, mode
      ensures Valid() && !closed
      ensures input == old(input) + p && total == |p|
    {
      var rest := p;
      total := 0;
      while |rest| > 0
        invariant Valid() && !closed
        invariant total <= |p| && rest == p[total..] && input == old(input) + p[..total]
      {
        var n := BLOCK - |buf|;
        if n > |rest| {
          n := |rest|;
        }
        Fill(rest[..n]);
        assert p[..total + n] == p[..total] + rest[..n];
        rest := rest[n..];
        total := total + n;
      }
    }

    /** One turn of Write's loop: what fits in the block is buffered, and a block that
        is full is encrypted. */
    method Fill(part: Bytes)
      requires Valid() && !closed && |buf| + |part| <= BLOCK
      modifies this`buf, this`input, writer, mode
      ensures Valid() && !closed && input == old(input) + part
    {
      ghost var chained := Image(mode.cipher, iv, input);
      if |buf| + |part| < BLOCK {
        FillPart(mode.cipher, iv, input, part);
      } else {
        FillBlock(mode.cipher, iv, input, part);
      }
      buf := buf + part;
      input := input + part;
      if |buf| == BLOCK {
        EncryptBlock(chained);
      }
    }

    /** The buffer holds a whole block: it is encrypted and written. */
    method EncryptBlock(ghost chained: Bytes)
      requires |buf| == 16 && Whole(chained)
      requires !closed && writer.written == start + chained && mode.iv == Chain(iv, chained)
      requires Image(mode.cipher, iv, input) == chained + Encrypt(mode.cipher, Chain(iv, chained), buf)
      requires Tail(input) == []
      modifies this`buf, writer, mode
      ensures Valid()
    {
      var block := mode.CryptBlocks(buf);
      ChainAppend(iv, chained, block);
      Associate(start, chained, block);
      writer.Write(block);
      buf := [];
    }

    /** Pads and encrypts what is buffered; a second Close does nothing. */
    method Close()
      requires Valid()
      modifies this, writer, mode
      ensures Valid() && closed && input == old(input)
      ensures old(closed) ==> unchanged(this) && unchanged(writer)
    {
      if closed {
        return;
      }
      closed := true;
      var padLen := BLOCK - |buf| % 16;
      var padding := Padding(padLen);
      assert padLen == PadLength(|input|);
      ghost var done := Image(mode.cipher, iv, input);
      FillPadding(mode.cipher, iv, input, padding);
      buf := buf + padding;
      var out := mode.CryptBlocks(buf);
      Associate(start, done, out);
      writer.Write(out);
    }
  }

  /** How many plaintext blocks a decrypt writer has passed on after n bytes: the
      IV yields none, and the last complete block is held back. */
  function Due(n: nat): (j: nat)
    ensures n < 32 ==> j == 0
    ensures n >= 32 ==> 32 <= n - 16 * j < 48
  {
    if n < 32 then 0 else n / 16 - 2
  }

  /** Passing on blocks until less than two are left passes on all that are due. */
  lemma DueReached(before: nat, n: nat, j: nat)
    requires before <= n && n - 16 - 16 * j < 32 && (j == Due(before) || 32 + 16 * j <= n)
    ensures j == Due(n)
  {
  }

  /** Exactly one block is held back when the stream is whole and long enough. */
  lemma HeldBack(n: nat)
    requires n >= 16
    ensures n - 16 - 16 * Due(n) == 16 <==> n >= 32 && n % 16 == 0
  {
  }

  /** The IV at the front of a stream, and the blocks after it. */
  function Front(stream: Bytes): Block
    requires |stream| >= 16
  {
    stream[..16]
  }

  /** The j-th body block. */
  function BodyBlock(stream: Bytes, j: nat): Block
    requires |stream| >= 32 + 16 * j
  {
    stream[16 + 16 * j..][..16]
  }

  /** The plaintext of the first j body blocks. */
  function Plain(c: Cipher, stream: Bytes, j: nat): (r: Bytes)
    requires |stream| >= 16 + 16 * j
    ensures |r| == 16 * j
  {
    Decrypt(c, Front(stream), stream[16..16 + 16 * j])
  }

  /** The chaining value after j body blocks. */
  function ChainAt(stream: Bytes, j: nat): Block
    requires |stream| >= 16 + 16 * j
  {
    if j == 0 then Front(stream) else BodyBlock(stream, j - 1)
  }

  /** Decrypting one more block from the chaining value reached. */
  lemma PlainStep(c: Cipher, stream: Bytes, j: nat)
    requires |stream| >= 32 + 16 * j
    ensures Plain(c, stream, j + 1)
         == Plain(c, stream, j) + Decrypt(c, ChainAt(stream, j), BodyBlock(stream, j))
  {
    var done := stream[16..16 + 16 * j];
    assert stream[16..32 + 16 * j] == done + BodyBlock(stream, j);
    DecryptAppend(c, Front(stream), done, BodyBlock(stream, j));
    assert Chain(Front(stream), done) == ChainAt(stream, j);
  }

  /** Output already due stays due as the stream grows. */
  lemma PlainGrows(c: Cipher, stream: Bytes, more: Bytes, j: nat)
    requires |stream| >= 16 + 16 * j
    ensures Plain(c, stream + more, j) == Plain(c, stream, j)
    ensures ChainAt(stream + more, j) == ChainAt(stream, j)
    ensures (stream + more)[16 + 16 * j..] == stream[16 + 16 * j..] + more
  {
    assert (stream + more)[16..16 + 16 * j] == stream[16..16 + 16 * j];
  }

  /** The output due before Close. */
  function Early(c: Cipher, stream: Bytes): Bytes {
    if |stream| < 16 then [] else Plain(c, stream, Due(|stream|))
  }

  /** Unpadding a plaintext: the verdict of Close and what is left. */
  ghost function Unpad(plain: Bytes): (CloseResult, Bytes)
    requires |plain| >= 16
  {
    var n := plain[|plain| - 1] as int;
    if !(1 <= n <= 16) then (InvalidPadding, plain[..|plain| - 16])
    else if !PaddedBy(plain, n) then (InvalidPaddingContent, plain[..|plain| - 16])
    else (Ok, plain[..|plain| - n])
  }

  /** What decrypting a whole stream gives: the outcome of Close and all output. */
  ghost function Decoded(c: Cipher, stream: Bytes): (CloseResult, Bytes) {
    if |stream| < 32 || |stream| % 16 != 0 then (IncompleteFinalBlock, Early(c, stream))
    else Unpad(Plain(c, stream, |stream| / 16 - 1))
  }

  /** Only the last block decides how a plaintext unpads. */
  lemma UnpadLast(early: Bytes, last: Block)
    ensures Unpad(early + last) == (Unpad(last).0, early + Unpad(last).1)
  {
    var plain := early + last;
    var n := last[15] as int;
    if 1 <= n <= 16 {
      assert PaddedBy(plain, n) <==> PaddedBy(last, n) by {
        assert forall i :: 16 - n <= i < 16 ==> last[i] == plain[|early| + i];
        assert forall i :: |plain| - n <= i < |plain| ==> plain[i] == last[i - |early|];
      }
      assert plain[..|plain| - n] == early + last[..16 - n];
    }
    assert plain[..|early|] == early;
    assert plain[|plain| - 1] == last[15];
    assert early + last[..0] == early;
  }

  /** When one block is held back at Close, it is the last of the stream and
      decides the outcome. */
  lemma HeldDecides(c: Cipher, stream: Bytes, early: Bytes, last: Block)
    requires |stream| >= 32 && |stream| % 16 == 0
    requires early == Early(c, stream)
    requires last == Decrypt(c, ChainAt(stream, |stream| / 16 - 2), BodyBlock(stream, |stream| / 16 - 2))
    ensures Decoded(c, stream).0 == Unpad(last).0
    ensures Decoded(c, stream).1 == early + Unpad(last).1
  {
    PlainStep(c, stream, |stream| / 16 - 2);
    UnpadLast(early, last);
  }

  /** The padding check at the end of cbcDecryptWriter.Close. */
  method StripPadding(last: Block) returns (r: CloseResult, out: Bytes)
    ensures (r, out) == Unpad(last) && (r != Ok ==> out == [])
  {
    var padLen := last[|last| - 1] as int;
    if padLen <= 0 || padLen > BLOCK {
      return InvalidPadding, [];
    }
    for i := |last| - padLen to |last|
      invariant forall j :: |last| - padLen <= j < i ==> last[j] as int == padLen
    {
      if last[i] as int != padLen {
        return InvalidPaddingContent, [];
      }
    }
    return Ok, last[..|last| - padLen];
  }

  class DecryptWriter {
    const writer: Sink
    const block: Cipher
    var mode: CbcDecrypter?
    var buf: Bytes
    var iv: Bytes
    var closed: bool
    var readIV: bool
    ghost const start: Bytes
    ghost var input: Bytes

    ghost function Modes(): set<object>
      reads this
    {
      if mode == null then {} else {mode}
    }

    /** The state once j body blocks have been passed on. */
    ghost predicate Passed(j: nat)
      reads this, writer, Modes()
    {
      if |input| < 16 then !readIV && j == 0 && buf == input && writer.written == start
      else
        && readIV
        && |input| >= 16 + 16 * j
        && buf == input[16 + 16 * j..]
        && mode != null && mode.cipher == block && mode.iv == ChainAt(input, j)
        && writer.written == start + Plain(block, input, j)
    }

    ghost predicate Valid()
      reads this, writer, Modes()
    {
      if closed then writer.written == start + Decoded(block, input).1
      else Passed(Due(|input|))
    }

    constructor (writer: Sink, block: Cipher)
      ensures Valid() && !closed && input == []
      ensures this.writer == writer && this.block == block && start == writer.written
      ensures mode == null
    {
      this.writer, this.block := writer, block;
      this.mode, this.buf, this.iv, this.closed, this.readIV := null, [], [], false, false;
      this.start, this.input := writer.written, [];
    }

    /** Appends p, takes the IV from the front of the stream, then drains all
        blocks but the last. Returns the number of bytes passed on. */
    method Write(p: Bytes) returns (total: nat)
      requires Valid() && !closed
      modifies this, writer, Modes()
      ensures Valid() && !closed
      ensures input == old(input) + p
      ensures mode == old(mode) || fresh(mode)
      ensures total == 16 * Due(|input|) - 16 * Due(|old(input)|)
    {
      total := 0;
      ghost var first := Due(|input|);
      Append(p);
      ghost var j: nat := first;
      while |buf| >= BLOCK * 2
        invariant !closed && input == old(input) + p && (mode == old(mode) || fresh(mode))
        invariant Passed(j) && total == 16 * (j - first)
        invariant j == first || 32 + 16 * j <= |input|
      {
        PassBlock(j);
        total := total + BLOCK;
        j := j + 1;
      }
      if |input| >= 16 {
        DueReached(|old(input)|, |input|, j);
      }
    }

    /** The first half of Write: buffer p and take the IV when it is complete. */
    method Append(p: Bytes)
      requires Valid() && !closed
      modifies this
      ensures !closed && input == old(input) + p && (mode == old(mode) || fresh(mode))
      ensures Passed(Due(|old(input)|))
    {
      if readIV {
        PlainGrows(block, input, p, Due(|input|));
      }
      buf := buf + p;
      input := input + p;
      if !readIV && |buf| >= BLOCK {
        iv := buf[..BLOCK];
        mode := new CbcDecrypter(block, iv);
        buf := buf[BLOCK..];
        readIV := true;
      }
    }

    /** One turn of Write's draining loop. */
    method PassBlock(ghost j: nat)
      requires Passed(j) && |buf| >= 32
      modifies this`buf, writer, mode
      ensures Passed(j + 1)
    {
      PlainStep(block, input, j);
      assert buf[..BLOCK] == BodyBlock(input, j);
      var dst := mode.CryptBlocks(buf[..BLOCK]);
      writer.Write(dst);
      buf := buf[BLOCK..];
    }

    /** Decrypts the one block held back; it decides the outcome of Close. */
    method DecryptHeld() returns (last: Block)
      requires Valid() && !closed && |buf| == 16
      modifies Modes()
      ensures Decoded(block, input) == (Unpad(last).0, Early(block, input) + Unpad(last).1)
    {
      assert buf == BodyBlock(input, |input| / 16 - 2);
      last := mode.CryptBlocks(buf);
      HeldDecides(block, input, Early(block, input), last);
    }

    /** Decrypts the block held back and strips the padding. */
    method Close() returns (r: CloseResult)
      requires Valid()
      modifies this, writer, Modes()
      ensures closed && input == old(input) && writer.written == start + Decoded(block, input).1
      ensures !old(closed) ==> r == Decoded(block, input).0
      ensures old(closed) ==> r == Ok && unchanged(this) && unchanged(writer)
    {
      if closed {
        return Ok;
      }
      if |input| >= 16 {
        HeldBack(|input|);
      }
      if |buf| != BLOCK {
        assert Decoded(block, input) == (IncompleteFinalBlock, Early(block, input));
        closed := true;
        return IncompleteFinalBlock;
      }
      r := CloseHeld();
    }

    /** The rest of Close, with one block held back. */
    method CloseHeld() returns (r: CloseResult)
      requires Valid() && !closed && |buf| == 16
      modifies this`closed, writer, Modes()
      ensures closed && writer.written == start + Decoded(block, input).1 && r == Decoded(block, input).0
    {
      ghost var early := Early(block, input);
      var last := DecryptHeld();
      var out;
      r, out := StripPadding(last);
      Associate(start, early, out);
      Empty(start + early);
      closed := true;
      if r == Ok {
        writer.Write(out);
      }
    }
  }
}
