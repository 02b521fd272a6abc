/** Cipher block chaining (section 6.2 of NIST SP 800-38A) over any block cipher,
    as the sender and internal/raop/rtp.go use it: whole blocks only, the tail in
    the clear, and the IV restarted for every packet. */
module Cbc {
  import opened Bits
  import opened Words

  const BLOCK := 16

  type CipherBlock = b: seq<byte> | |b| == BLOCK witness seq(BLOCK, _ => 0)

  /** A block function under some fixed key. */
  type Cipher = CipherBlock -> CipherBlock

  // ---- exclusive or ----------------------------------------------------------------

  /** Exclusive or of the n low bits. */
  function XorBits(a: nat, b: nat, n: nat): (x: nat)
    ensures x < Pow2(n)
    decreases n
  {
    if n == 0 then 0 else 2 * XorBits(a / 2, b / 2, n - 1) + (if a % 2 == b % 2 then 0 else 1)
  }

  lemma {:induction false} XorBitsUndo(a: nat, b: nat, n: nat)
    requires a < Pow2(n)
    ensures XorBits(XorBits(a, b, n), b, n) == a
    decreases n
  {
    if n > 0 {
      var x := XorBits(a / 2, b / 2, n - 1);
      XorBitsUndo(a / 2, b / 2, n - 1);
      DivModUnique(x, 2, if a % 2 == b % 2 then 0 else 1);
    }
  }

  /** Bit by bit it is 1 exactly where the two differ. */
  lemma {:induction false} XorBitsShow(a: nat, b: nat, n: nat, k: nat)
    requires k < n
    ensures BitOf(XorBits(a, b, n), k) == 1 <==> BitOf(a, k) != BitOf(b, k)
    decreases n
  {
    var x, low := XorBits(a / 2, b / 2, n - 1), if a % 2 == b % 2 then 0 else 1;
    DivModUnique(x, 2, low);
    if k > 0 { XorBitsShow(a / 2, b / 2, n - 1, k - 1); }
  }

  /** x is the exclusive or of a and b. */
  ghost predicate IsXor(x: byte, a: byte, b: byte)
  {
    forall k: nat :: k < 8 ==> (BitOf(x, k) == 1 <==> BitOf(a, k) != BitOf(b, k))
  }

  lemma XorByteShows(a: byte, b: byte)
    ensures IsXor(XorByte(a, b), a, b)
  {
    hide XorBits, BitOf;
    forall k: nat | k < 8 ensures BitOf(XorByte(a, b), k) == 1 <==> BitOf(a, k) != BitOf(b, k) {
      XorBitsShow(a, b, 8, k);
    }
  }

  function XorByte(a: byte, b: byte): byte
  {
    Pow2Small();
    XorBits(a, b, 8)
  }

  lemma XorByteUndo(a: byte, b: byte)
    ensures XorByte(XorByte(a, b), b) == a
  {
    hide XorBits;
    Pow2Small();
    XorBitsUndo(a, b, 8);
  }

  function Xor(a: CipherBlock, b: CipherBlock): CipherBlock
  {
    seq(BLOCK, i requires 0 <= i < BLOCK => XorByte(a[i], b[i]))
  }

  lemma XorUndo(a: CipherBlock, b: CipherBlock)
    ensures Xor(Xor(a, b), b) == a
  {
    hide XorByte;
    forall i | 0 <= i < BLOCK ensures Xor(Xor(a, b), b)[i] == a[i] { XorByteUndo(a[i], b[i]); }
  }

  // ---- chaining ----------------------------------------------------------------------

  /** Some fixed key: dec undoes enc. */
  ghost predicate Inverse(enc: Cipher, dec: Cipher)
  {
    forall b: CipherBlock :: dec(enc(b)) == b
  }

  function BlockAt(s: seq<byte>, j: nat): (b: CipherBlock)
    requires BLOCK * j + BLOCK <= |s|
  {
    s[BLOCK * j..BLOCK * j + BLOCK]
  }

  /** The first n blocks decrypted: each is the deciphered block xor the
      ciphertext block before it, the IV for the first. */
  function Opened(dec: Cipher, iv: CipherBlock, c: seq<byte>, n: nat): (p: seq<byte>)
    requires BLOCK * n <= |c|
    ensures |p| == BLOCK * n
  {
    if n == 0 then [] else Opened(dec, iv, c, n - 1) + Xor(dec(BlockAt(c, n - 1)), Chain(iv, c, n - 1))
  }

  /** What block j is chained to. */
  function Chain(iv: CipherBlock, c: seq<byte>, j: nat): CipherBlock
    requires BLOCK * j <= |c|
  {
    if j == 0 then iv else BlockAt(c, j - 1)
  }

  /** The sender's side: the first n blocks encrypted. */
  function Sealed(enc: Cipher, iv: CipherBlock, p: seq<byte>, n: nat): (c: seq<byte>)
    requires BLOCK * n <= |p|
    ensures |c| == BLOCK * n
  {
    if n == 0 then []
    else
      var before := Sealed(enc, iv, p, n - 1);
      before + enc(Xor(BlockAt(p, n - 1), Chain(iv, before, n - 1)))
  }

  function Blocks(s: seq<byte>): (n: nat)
    ensures BLOCK * n <= |s| < BLOCK * n + BLOCK
  {
    |s| / BLOCK
  }

  /** A payload as the sender ships it. */
  function Seal(enc: Cipher, iv: CipherBlock, p: seq<byte>): (c: seq<byte>)
    ensures |c| == |p|
  {
    Sealed(enc, iv, p, Blocks(p)) + p[BLOCK * Blocks(p)..]
  }

  /** A payload as decrypt leaves it. */
  function Open(dec: Cipher, iv: CipherBlock, c: seq<byte>): (p: seq<byte>)
    ensures |p| == |c|
  {
    Opened(dec, iv, c, Blocks(c)) + c[BLOCK * Blocks(c)..]
  }

  // ---- the round trip ------------------------------------------------------------------

  lemma {:induction false} OpenedAgrees(dec: Cipher, iv: CipherBlock, c: seq<byte>, d: seq<byte>, n: nat)
    requires BLOCK * n <= |c| && BLOCK * n <= |d| && c[..BLOCK * n] == d[..BLOCK * n]
    ensures Opened(dec, iv, c, n) == Opened(dec, iv, d, n)
  {
    if n > 0 {
      BlocksAgree(c, d, n, n - 1);
      if n > 1 { BlocksAgree(c, d, n, n - 2); }
      assert c[..BLOCK * (n - 1)] == c[..BLOCK * n][..BLOCK * (n - 1)];
      assert d[..BLOCK * (n - 1)] == d[..BLOCK * n][..BLOCK * (n - 1)];
      OpenedAgrees(dec, iv, c, d, n - 1);
    }
  }

  lemma BlocksAgree(c: seq<byte>, d: seq<byte>, n: nat, j: nat)
    requires BLOCK * n <= |c| && BLOCK * n <= |d| && c[..BLOCK * n] == d[..BLOCK * n] && j < n
    ensures BlockAt(c, j) == BlockAt(d, j)
  {
    assert BlockAt(c, j) == c[..BLOCK * n][BLOCK * j..BLOCK * j + BLOCK];
    assert BlockAt(d, j) == d[..BLOCK * n][BLOCK * j..BLOCK * j + BLOCK];
  }

  lemma SealedStep(enc: Cipher, iv: CipherBlock, p: seq<byte>, n: nat)
    requires n > 0 && BLOCK * n <= |p|
    ensures var before, c := Sealed(enc, iv, p, n - 1), Sealed(enc, iv, p, n);
      && c[..BLOCK * (n - 1)] == before == before[..BLOCK * (n - 1)]
      && BlockAt(c, n - 1) == enc(Xor(BlockAt(p, n - 1), Chain(iv, c, n - 1)))
    ensures p[..BLOCK * n] == p[..BLOCK * (n - 1)] + BlockAt(p, n - 1)
  {
    hide Xor;
    var before, c := Sealed(enc, iv, p, n - 1), Sealed(enc, iv, p, n);
    assert c[..BLOCK * (n - 1)] == before[..BLOCK * (n - 1)];
    if n > 1 { BlocksAgree(c, before, n - 1, n - 2); }
  }

  lemma {:induction false} OpenedSealed(enc: Cipher, dec: Cipher, iv: CipherBlock, p: seq<byte>, n: nat)
    requires Inverse(enc, dec) && BLOCK * n <= |p|
    ensures Opened(dec, iv, Sealed(enc, iv, p, n), n) == p[..BLOCK * n]
  {
    hide Xor, Sealed, BlockAt, Chain;
    if n > 0 {
      var before, c := Sealed(enc, iv, p, n - 1), Sealed(enc, iv, p, n);
      OpenedSealed(enc, dec, iv, p, n - 1);
      SealedStep(enc, iv, p, n);
      OpenedAgrees(dec, iv, c, before, n - 1);
      XorUndo(BlockAt(p, n - 1), Chain(iv, c, n - 1));
    }
  }

  /** Decrypting what the sender encrypted gives back the payload, whatever its
      length, cipher, key and IV. */
  lemma OpenUndoesSeal(enc: Cipher, dec: Cipher, iv: CipherBlock, p: seq<byte>)
    requires Inverse(enc, dec)
    ensures Open(dec, iv, Seal(enc, iv, p)) == p
  {
    hide Opened, Sealed;
    var n, c := Blocks(p), Seal(enc, iv, p);
    assert Blocks(c) == n;
    assert c[..BLOCK * n] == Sealed(enc, iv, p, n) == Sealed(enc, iv, p, n)[..BLOCK * n];
    OpenedAgrees(dec, iv, c, Sealed(enc, iv, p, n), n);
    OpenedSealed(enc, dec, iv, p, n);
    assert c[BLOCK * n..] == p[BLOCK * n..];
  }

  /** Nothing but a block and the one before it enters into its plaintext: a
      damaged block spoils itself and its successor. */
  lemma {:induction false} OpenedAt(dec: Cipher, iv: CipherBlock, c: seq<byte>, n: nat, j: nat)
    requires BLOCK * n <= |c| && j < n
    ensures BlockAt(Opened(dec, iv, c, n), j) == Xor(dec(BlockAt(c, j)), Chain(iv, c, j))
  {
    hide Xor;
    if j < n - 1 {
      OpenedAt(dec, iv, c, n - 1, j);
      var p := Opened(dec, iv, c, n - 1);
      assert Opened(dec, iv, c, n)[..BLOCK * (n - 1)] == p[..BLOCK * (n - 1)];
      BlocksAgree(Opened(dec, iv, c, n), p, n - 1, j);
    }
  }

  /** Where two payloads of one length agree on a block and its predecessor they
      decrypt alike, and their tails pass through. */
  lemma DamageIsLocal(dec: Cipher, iv: CipherBlock, c: seq<byte>, d: seq<byte>, j: nat)
    requires |c| == |d| && BLOCK * j + BLOCK <= |c|
    requires BlockAt(c, j) == BlockAt(d, j) && (j > 0 ==> BlockAt(c, j - 1) == BlockAt(d, j - 1))
    ensures BlockAt(Open(dec, iv, c), j) == BlockAt(Open(dec, iv, d), j)
    ensures Open(dec, iv, c)[BLOCK * Blocks(c)..] == c[BLOCK * Blocks(c)..]
  {
    hide Xor, Opened;
    forall s: seq<byte> | s == c || s == d
      ensures BlockAt(Open(dec, iv, s), j) == Xor(dec(BlockAt(s, j)), Chain(iv, s, j))
    {
      var n := Blocks(s);
      OpenedAt(dec, iv, s, n, j);
      assert Open(dec, iv, s)[..BLOCK * n] == Opened(dec, iv, s, n)[..BLOCK * n];
      BlocksAgree(Open(dec, iv, s), Opened(dec, iv, s, n), n, j);
    }
  }

  /** A decrypted payload, byte by byte and bit by bit: in its whole blocks of 16 each
      byte is the deciphered one xor the byte 16 places before it, or the IV's; the
      rest is as it came. */
  ghost predicate IsDecrypted(p: seq<byte>, dec: Cipher, iv: CipherBlock, c: seq<byte>)
  {
    && |p| == |c|
    && (forall i :: 0 <= i < |c| / 16 * 16 ==>
          IsXor(p[i], dec(c[i / 16 * 16..i / 16 * 16 + 16])[i % 16], if i < 16 then iv[i] else c[i - 16]))
    && (forall i :: |c| / 16 * 16 <= i < |c| ==> p[i] == c[i])
  }

  lemma OpenIsDecrypted(dec: Cipher, iv: CipherBlock, c: seq<byte>)
    ensures IsDecrypted(Open(dec, iv, c), dec, iv, c)
  {
    hide IsXor, Opened, XorByte;
    forall i | 0 <= i < |c| / 16 * 16
      ensures IsXor(Open(dec, iv, c)[i], dec(c[i / 16 * 16..i / 16 * 16 + 16])[i % 16],
                    if i < 16 then iv[i] else c[i - 16])
    {
      OpenByte(dec, iv, c, i / 16, i % 16);
    }
  }

  lemma OpenByte(dec: Cipher, iv: CipherBlock, c: seq<byte>, j: nat, m: nat)
    requires j < Blocks(c) && m < 16
    ensures IsXor(Open(dec, iv, c)[16 * j + m], dec(BlockAt(c, j))[m], if j == 0 then iv[m] else c[16 * j + m - 16])
  {
    hide IsXor, Opened, XorByte;
    var n := Blocks(c);
    OpenedAt(dec, iv, c, n, j);
    var p := Opened(dec, iv, c, n);
    assert Open(dec, iv, c)[16 * j + m] == p[16 * j + m] == BlockAt(p, j)[m];
    XorByteShows(dec(BlockAt(c, j))[m], Chain(iv, c, j)[m]);
    if j > 0 { assert Chain(iv, c, j)[m] == BlockAt(c, j - 1)[m] == c[16 * (j - 1) + m]; }
  }

  // ---- in place --------------------------------------------------------------------------

  /** CryptBlocks of a fresh CBC decrypter, block after block into out. */
  method CryptBlocks(dec: Cipher, iv: CipherBlock, out: array<byte>, src: seq<byte>, n: nat)
    requires BLOCK * n <= out.Length && BLOCK * n <= |src|
    modifies out
    ensures out[..BLOCK * n] == Opened(dec, iv, src, n)
    ensures out[BLOCK * n..] == old(out[BLOCK * n..])
  {
    hide Xor;
    var prev := iv;
    for j := 0 to n
      invariant prev == Chain(iv, src, j)
      invariant out[..BLOCK * j] == Opened(dec, iv, src, j)
      invariant out[BLOCK * j..] == old(out[BLOCK * j..])
    {
      var c := BlockAt(src, j);
      var p := Xor(dec(c), prev);
      PutBlock(out, BLOCK * j, p);
      prev := c;
    }
  }

  method PutBlock(out: array<byte>, at: nat, p: CipherBlock)
    requires at + BLOCK <= out.Length
    modifies out
    ensures out[..at + BLOCK] == old(out[..at]) + p && out[at + BLOCK..] == old(out[at + BLOCK..])
  {
    for i := 0 to BLOCK
      invariant out[..at] == old(out[..at]) && out[at..at + i] == p[..i]
      invariant out[at + BLOCK..] == old(out[at + BLOCK..])
    {
      out[at + i] := p[i];
    }
    assert out[..at + BLOCK] == out[..at] + out[at..at + BLOCK];
  }

  /** decrypt: a new buffer, deciphered over whole blocks; the count says whether
      there were any. */
  method Decrypt(dec: Cipher, iv: CipherBlock, payload: seq<byte>) returns (out: array<byte>, counted: bool)
    ensures fresh(out) && out[..] == Open(dec, iv, payload) && IsDecrypted(out[..], dec, iv, payload)
    ensures counted <==> |payload| >= 16
  {
    hide Opened, Blocks, IsDecrypted;
    OpenIsDecrypted(dec, iv, payload);
    out := new byte[|payload|](i requires 0 <= i < |payload| => payload[i]);
    assert out[..] == payload;
    var whole := BLOCK * Blocks(payload);
    counted := whole != 0;
    if !counted {
      NoBlocks(dec, iv, payload);
      return;
    }
    CryptBlocks(dec, iv, out, payload, Blocks(payload));
    assert out[..] == out[..whole] + out[whole..];
  }

  lemma NoBlocks(dec: Cipher, iv: CipherBlock, c: seq<byte>)
    requires Blocks(c) == 0
    ensures Open(dec, iv, c) == c
  {
  }
}
