/** Cipher block chaining (section 6.2 of NIST SP 800-38A) over any block cipher, as
    tools/wii-save-decode.py uses it. */
module CbcCipher {
  import opened Common

  type Bytes = seq<Byte>

  const BLOCK := 16

  // ---- exclusive or ----------------------------------------------------------

  /** Bit by bit, from the lowest. */
  function XorBits(a: nat, b: nat): nat {
    if a == 0 && b == 0 then 0 else (a + b) % 2 + 2 * XorBits(a / 2, b / 2)
  }

  function Pow2(n: nat): nat {
    if n == 0 then 1 else 2 * Pow2(n - 1)
  }

  lemma {:induction false} XorBound(a: nat, b: nat, n: nat)
    requires a < Pow2(n) && b < Pow2(n)
    ensures XorBits(a, b) < Pow2(n)
  {
    if a != 0 || b != 0 {
      XorBound(a / 2, b / 2, n - 1);
    }
  }

  lemma {:induction false} XorSelf(a: nat, b: nat)
    ensures XorBits(a, a) == 0 && XorBits(a, 0) == a && XorBits(a, b) == XorBits(b, a)
  {
    if a != 0 || b != 0 {
      XorSelf(a / 2, b / 2);
    }
  }

  lemma XorIs(a: nat, b: nat)
    ensures XorBits(a, b) == (a + b) % 2 + 2 * XorBits(a / 2, b / 2)
  {
  }

  /** The lowest bit and the rest of an exclusive or. */
  lemma XorHalves(a: nat, b: nat)
    ensures XorBits(a, b) % 2 == (a + b) % 2 && XorBits(a, b) / 2 == XorBits(a / 2, b / 2)
  {
    hide XorBits;
    XorIs(a, b);
  }

  lemma Parity(x: nat, y: nat, c: nat)
    requires x % 2 == y % 2
    ensures (x + c) % 2 == (y + c) % 2
  {
  }

  lemma {:induction false} XorAssoc(a: nat, b: nat, c: nat)
    ensures XorBits(XorBits(a, b), c) == XorBits(a, XorBits(b, c))
    decreases a + b + c
  {
    hide XorBits;
    if a == 0 && b == 0 && c == 0 {
      XorSelf(0, 0);
    } else {
      var left, right := XorBits(XorBits(a, b), c), XorBits(a, XorBits(b, c));
      XorAssoc(a / 2, b / 2, c / 2);
      XorHalves(a, b);
      XorHalves(b, c);
      XorHalves(XorBits(a, b), c);
      XorHalves(a, XorBits(b, c));
      Parity(XorBits(a, b), a + b, c);
      Parity(XorBits(b, c), b + c, a);
      assert left % 2 == right % 2 && left / 2 == right / 2;
    }
  }

  function Xor(a: Byte, b: Byte): Byte {
    assert Pow2(8) == 256;
    XorBound(a, b, 8);
    XorBits(a, b)
  }

  function XorAll(a: Bytes, b: Bytes): (r: Bytes)
    requires |a| == |b|
    ensures |r| == |a| && forall i :: 0 <= i < |a| ==> r[i] == Xor(a[i], b[i])
  {
    seq(|a|, i requires 0 <= i < |a| => Xor(a[i], b[i]))
  }

  lemma XorTwice(a: Bytes, b: Bytes)
    requires |a| == |b|
    ensures XorAll(XorAll(a, b), b) == a
  {
    hide XorAll, XorBits;
    forall i | 0 <= i < |a|
      ensures XorAll(XorAll(a, b), b)[i] == a[i]
    {
      XorAssoc(a[i], b[i], b[i]);
      XorSelf(b[i], 0);
      XorSelf(a[i], 0);
    }
  }

  /** Two texts masked by the same one differ as they did. */
  lemma XorCancels(x: Byte, a: Byte, b: Byte)
    ensures Xor(Xor(x, a), Xor(x, b)) == Xor(a, b)
  {
    hide XorBits;
    XorSelf(x, a);
    XorAssoc(a, x, Xor(x, b));
    XorAssoc(x, x, b);
    XorSelf(x, 0);
    XorSelf(b, 0);
  }

  // ---- chaining --------------------------------------------------------------

  /** A block cipher under a fixed key. */
  datatype Cipher = Cipher(enc: Bytes -> Bytes, dec: Bytes -> Bytes)

  /** It takes blocks to blocks, both ways. */
  ghost predicate Blocks(c: Cipher) {
    forall b: Bytes :: |b| == BLOCK ==> |c.enc(b)| == BLOCK && |c.dec(b)| == BLOCK
  }

  /** And the two ways undo each other. */
  ghost predicate Sound(c: Cipher) {
    Blocks(c) && forall b: Bytes :: |b| == BLOCK ==> c.dec(c.enc(b)) == b && c.enc(c.dec(b)) == b
  }

  lemma Undone(c: Cipher, b: Bytes)
    requires Sound(c) && |b| == BLOCK
    ensures Blocks(c) && |c.enc(b)| == BLOCK && |c.dec(b)| == BLOCK
    ensures c.dec(c.enc(b)) == b && c.enc(c.dec(b)) == b
  {
  }

  /** Whole blocks only; what is left over is dropped. */
  function Keep(n: nat): nat {
    n - n % BLOCK
  }

  function Decrypt(c: Cipher, blob: Bytes, iv: Bytes): (plain: Bytes)
    requires |iv| == BLOCK && Blocks(c)
    ensures |plain| == Keep(|blob|)
  {
    if |blob| < BLOCK then []
    else XorAll(c.dec(blob[..BLOCK]), iv) + Decrypt(c, blob[BLOCK..], blob[..BLOCK])
  }

  function Encrypt(c: Cipher, plain: Bytes, iv: Bytes): (blob: Bytes)
    requires |iv| == BLOCK && Blocks(c)
    ensures |blob| == Keep(|plain|)
  {
    if |plain| < BLOCK then []
    else
      var first := c.enc(XorAll(plain[..BLOCK], iv));
      first + Encrypt(c, plain[BLOCK..], first)
  }

  lemma DecryptIs(c: Cipher, first: Bytes, rest: Bytes, iv: Bytes)
    requires Blocks(c) && |iv| == BLOCK && |first| == BLOCK
    ensures |c.dec(first)| == BLOCK
    ensures Decrypt(c, first + rest, iv) == XorAll(c.dec(first), iv) + Decrypt(c, rest, first)
  {
    assert (first + rest)[..BLOCK] == first && (first + rest)[BLOCK..] == rest;
  }

  lemma EncryptIs(c: Cipher, first: Bytes, rest: Bytes, iv: Bytes)
    requires Blocks(c) && |iv| == BLOCK && |first| == BLOCK
    ensures var out := c.enc(XorAll(first, iv));
            |out| == BLOCK && Encrypt(c, first + rest, iv) == out + Encrypt(c, rest, out)
  {
    assert (first + rest)[..BLOCK] == first && (first + rest)[BLOCK..] == rest;
  }

  /** A wrong vector spoils the first block, by the difference of the vectors, and
      nothing after it. */
  lemma TwoVectors(c: Cipher, blob: Bytes, iv: Bytes, wrong: Bytes)
    requires Blocks(c) && |iv| == BLOCK && |wrong| == BLOCK
    ensures var right, spoiled := Decrypt(c, blob, iv), Decrypt(c, blob, wrong);
            && |right| == |spoiled|
            && (forall i :: BLOCK <= i < |right| ==> spoiled[i] == right[i])
            && (forall i :: 0 <= i < BLOCK && i < |right| ==> Xor(right[i], spoiled[i]) == Xor(iv[i], wrong[i]))
  {
    hide Decrypt, XorAll, Xor;
    if |blob| >= BLOCK {
      var first, rest := blob[..BLOCK], blob[BLOCK..];
      assert blob == first + rest;
      DecryptIs(c, first, rest, iv);
      DecryptIs(c, first, rest, wrong);
      var x := c.dec(first);
      forall i | 0 <= i < BLOCK
        ensures Xor(XorAll(x, iv)[i], XorAll(x, wrong)[i]) == Xor(iv[i], wrong[i])
      {
        XorCancels(x[i], iv[i], wrong[i]);
      }
    }
  }

  /** Encrypting again what was decrypted gives the source back, whatever the vector:
      the round trip says nothing about the vector. */
  lemma {:induction false} AgainGivesTheSource(c: Cipher, blob: Bytes, iv: Bytes)
    requires Sound(c) && |iv| == BLOCK
    ensures Blocks(c) && Encrypt(c, Decrypt(c, blob, iv), iv) == blob[..Keep(|blob|)]
  {
    hide Sound, Decrypt, XorAll;
    var first: Bytes := seq(BLOCK, _ => 0);
    Undone(c, first);
    if |blob| >= BLOCK {
      var rest := blob[BLOCK..];
      first := blob[..BLOCK];
      assert blob == first + rest;
      Undone(c, first);
      DecryptIs(c, first, rest, iv);
      var plain := XorAll(c.dec(first), iv);
      XorTwice(c.dec(first), iv);
      EncryptIs(c, plain, Decrypt(c, rest, first), iv);
      AgainGivesTheSource(c, rest, first);
      assert blob[..Keep(|blob|)] == first + rest[..Keep(|rest|)];
    }
  }

  /** A beginning of the blocks decrypts as the beginning of the text. */
  lemma {:induction false} DecryptBeginning(c: Cipher, blob: Bytes, n: nat, iv: Bytes)
    requires Blocks(c) && |iv| == BLOCK && n <= |blob|
    ensures Keep(n) <= Keep(|blob|) && Decrypt(c, blob[..n], iv) == Decrypt(c, blob, iv)[..Keep(n)]
  {
    hide XorAll;
    if n >= BLOCK {
      var first, rest := blob[..BLOCK], blob[BLOCK..];
      assert blob == first + rest && blob[..n] == first + rest[..n - BLOCK];
      DecryptBeginning(c, rest, n - BLOCK, first);
      DecryptIs(c, first, rest, iv);
      DecryptIs(c, first, rest[..n - BLOCK], iv);
    }
  }

  /** And decrypting what was encrypted gives the text back. */
  lemma {:induction false} DecryptInverts(c: Cipher, plain: Bytes, iv: Bytes)
    requires Sound(c) && |iv| == BLOCK && |plain| % BLOCK == 0
    ensures Blocks(c) && Decrypt(c, Encrypt(c, plain, iv), iv) == plain
  {
    hide Sound, XorAll;
    var first: Bytes := seq(BLOCK, _ => 0);
    Undone(c, first);
    if plain != [] {
      var rest := plain[BLOCK..];
      first := plain[..BLOCK];
      assert plain == first + rest;
      var mixed := XorAll(first, iv);
      XorTwice(first, iv);
      Undone(c, mixed);
      EncryptIs(c, first, rest, iv);
      DecryptIs(c, c.enc(mixed), Encrypt(c, rest, c.enc(mixed)), iv);
      DecryptInverts(c, rest, c.enc(mixed));
    }
  }
}
