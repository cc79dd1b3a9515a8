/** pbkdf2DecryptReader of pkg/encrypt/pbkdf2aes256cbc.go: it buffers the first
    16 bytes as the salt, derives the key, and passes the rest to a CBC decrypt
    writer. Key derivation is a parameter, `derive`. */
module Pbkdf2 {
  import opened Cbc
  import opened CbcWriters

  const SALT: nat := 16

  /** How many bytes of salt are still to come. */
  function Needed(input: Bytes): nat {
    if |input| < 16 then 16 - |input| else 0
  }

  /** How many bytes of plaintext have been passed on. */
  function Emitted(input: Bytes): nat {
    if |input| < 16 then 0 else 16 * Due(|input| - 16)
  }

  class DecryptReader {
    const derive: Bytes -> Cipher
    const out: Sink
    var buf: Bytes
    var aes: DecryptWriter?
    var closed: bool
    ghost const start: Bytes
    ghost var input: Bytes

    ghost function Parts(): set<object>
      reads this, aes
    {
      if aes == null then {} else {aes} + aes.Modes()
    }

    ghost predicate Valid()
      reads this, out, Parts(), aes
    {
      if |input| < SALT then aes == null && buf == input && out.written == start
      else
        && aes != null && aes.writer == out && aes.Valid() && aes.start == start
        && aes.closed == closed
        && aes.block == derive(input[..SALT]) && aes.input == input[SALT..]
    }

    constructor (derive: Bytes -> Cipher, out: Sink)
      ensures Valid() && !closed && input == []
      ensures this.derive == derive && this.out == out && start == out.written
      ensures Parts() == {}
    {
      this.derive, this.out := derive, out;
      this.buf, this.aes, this.closed := [], null, false;
      this.start, this.input := out.written, [];
    }

    /** Buffers the salt, then feeds the rest to the decrypt writer. Returns the bytes
        taken as salt and the bytes of plaintext passed on. */
    method Write(p: Bytes) returns (n: nat)
      requires Valid() && !closed
      modifies this, out, Parts()
      ensures Valid() && !closed && input == old(input) + p
      ensures fresh(Parts() - old(Parts()))
      ensures n == (if |input| < 16 then |p| else Needed(old(input)) + Emitted(input) - Emitted(old(input)))
    {
      if aes != null {
        n := Forward(p);
        return;
      }
      var needed := SALT - |buf|;
      if needed > |p| {
        buf := buf + p;
        input := input + p;
        return |p|;
      }
      n := TakeSalt(p, needed);
    }

    /** Write, once the salt is complete. */
    method Forward(p: Bytes) returns (n: nat)
      requires Valid() && !closed && aes != null
      modifies this`input, out, Parts()
      ensures Valid() && !closed && input == old(input) + p && aes == old(aes)
      ensures fresh(Parts() - old(Parts()))
      ensures n == Emitted(input) - Emitted(old(input))
    {
      n := aes.Write(p);
      input := input + p;
      assert input[..SALT] == old(input)[..SALT];
      assert input[SALT..] == old(input)[SALT..] + p;
    }

    /** Write, with the bytes that complete the salt. */
    method TakeSalt(p: Bytes, needed: nat) returns (n: nat)
      requires Valid() && !closed && aes == null && needed == SALT - |buf| && needed <= |p|
      modifies this, out
      ensures Valid() && !closed && input == old(input) + p && aes != null
      ensures fresh(Parts())
      ensures n == needed + Emitted(input)
    {
      buf := buf + p[..needed];
      input := input + p;
      assert buf == input[..SALT] && p[needed..] == input[SALT..];
      aes := new DecryptWriter(out, derive(buf));
      var m := aes.Write(p[needed..]);
      return needed + m;
    }

    /** The outcome and output of the whole stream at once: its first 16 bytes stripped and
        the rest decoded under their key. Before the salt is complete there is nothing to
        close and no error. */
    method Close() returns (r: CloseResult)
      requires Valid()
      modifies this, out, Parts()
      ensures Valid() && closed && input == old(input)
      ensures !old(closed) ==> r == if |input| < 16 then Ok else Decoded(derive(input[..16]), input[16..]).0
      ensures out.written == start + if |input| < 16 then [] else Decoded(derive(input[..16]), input[16..]).1
      ensures old(closed) ==> r == Ok && unchanged(this) && unchanged(out)
    {
      if closed {
        return Ok;
      }
      closed := true;
      if aes != null {
        r := aes.Close();
      } else {
        r := Ok;
        assert start + [] == start;
      }
    }
  }
}
