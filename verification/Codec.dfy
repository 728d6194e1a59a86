/** Little-endian integers inside a block: what memcpy of a `big_int` or an `int` does. */
module Codec {
  import opened Geometry

  /** 256 ^ width. */
  function Limit(width: nat): nat {
    if width == 0 then 1 else 0x100 * Limit(width - 1)
  }

  function Encode(n: nat, width: nat): (s: seq<byte>)
    ensures |s| == width
  {
    if width == 0 then [] else [n % 0x100] + Encode(n / 0x100, width - 1)
  }

  function Decode(s: seq<byte>): (n: nat)
    ensures n < Limit(|s|)
  {
    if s == [] then 0 else s[0] + 0x100 * Decode(s[1..])
  }

  lemma {:induction false} DecodeEncode(n: nat, width: nat)
    requires n < Limit(width)
    ensures Decode(Encode(n, width)) == n
  {
    if width > 0 {
      DecodeEncode(n / 0x100, width - 1);
      assert Encode(n, width)[1..] == Encode(n / 0x100, width - 1);
    }
  }

  lemma {:induction false} EncodeDecode(s: seq<byte>)
    ensures Encode(Decode(s), |s|) == s
  {
    if s != [] {
      var first, rest, n := s[0], s[1..], Decode(s[1..]);
      EncodeDecode(rest);
      assert (first + 0x100 * n) % 0x100 == first && (first + 0x100 * n) / 0x100 == n;
      assert s == [first] + rest;
    }
  }

  lemma {:induction false} DecodeZeros(s: seq<byte>)
    requires forall i :: 0 <= i < |s| ==> s[i] == 0
    ensures Decode(s) == 0
  {
    if s != [] {
      DecodeZeros(s[1..]);
    }
  }

  /** The value of four bytes, the lowest one first. */
  function FourBytes(a: nat, b: nat, c: nat, d: nat): nat {
    a + 0x100 * b + 0x1_0000 * c + 0x100_0000 * d
  }

  lemma DecodeInt(s: seq<byte>)
    requires |s| == 4
    ensures Decode(s) == FourBytes(s[0], s[1], s[2], s[3])
  {
    assert Decode(s[1..]) == s[1] + 0x100 * Decode(s[2..]);
    assert Decode(s[2..]) == s[2] + 0x100 * Decode(s[3..]);
    assert Decode(s[3..]) == s[3] + 0x100 * Decode(s[4..]);
  }

  lemma DecodeBigInt(s: seq<byte>)
    requires |s| == 8
    ensures Decode(s) == FourBytes(s[0], s[1], s[2], s[3]) + 0x1_0000_0000 * FourBytes(s[4], s[5], s[6], s[7])
  {
    DecodeInt(s[4..]);
    assert Decode(s[1..]) == s[1] + 0x100 * Decode(s[2..]);
    assert Decode(s[2..]) == s[2] + 0x100 * Decode(s[3..]);
    assert Decode(s[3..]) == s[3] + 0x100 * Decode(s[4..]);
  }

  lemma LimitWord()
    ensures Limit(8) == ID_LIMIT && Limit(4) == 0x1_0000_0000
  {
    assert Limit(4) == 0x100 * (0x100 * (0x100 * (0x100 * Limit(0))));
    assert Limit(8) == 0x100 * (0x100 * (0x100 * (0x100 * Limit(4))));
  }

  /** Conversion of an unsigned value to a 32-bit int: the value modulo 2^32, in two's
      complement. */
  function ToInt(n: nat): (r: int)
    ensures -0x8000_0000 <= r < 0x8000_0000 && r <= n
  {
    if n < 0x8000_0000 then n
    else if n < 0x1_0000_0000 then n - 0x1_0000_0000
    else ToInt(n - 0x1_0000_0000)
  }

  /** The int differs from the value by a multiple of 2^32. */
  lemma {:induction false} ToIntWraps(n: nat)
    ensures (n - ToInt(n)) % 0x1_0000_0000 == 0
  {
    if n >= 0x1_0000_0000 {
      ToIntWraps(n - 0x1_0000_0000);
      assert n - ToInt(n) == (n - 0x1_0000_0000 - ToInt(n - 0x1_0000_0000)) + 0x1_0000_0000;
    }
  }

  /** So it is the lowest 32 bits, the highest of which is the sign. */
  lemma ToIntIs(n: nat)
    ensures var m := n % 0x1_0000_0000; ToInt(n) == if m < 0x8000_0000 then m else m - 0x1_0000_0000
  {
    ToIntWraps(n);
  }

  /** memcpy of `chunk` into a block at `at`. */
  function Patch(b: Block, at: nat, chunk: seq<byte>): Block
    requires at + |chunk| <= BLOCK_SIZE
  {
    b[..at] + chunk + b[at + |chunk|..]
  }

  /** A patch is read back where it was written, and nowhere else. */
  lemma PatchReads(b: Block, at: nat, chunk: seq<byte>)
    requires at + |chunk| <= BLOCK_SIZE
    ensures Patch(b, at, chunk)[at..at + |chunk|] == chunk
  {}

  lemma PatchKeeps(b: Block, at: nat, chunk: seq<byte>, lo: nat, hi: nat)
    requires at + |chunk| <= BLOCK_SIZE && lo <= hi <= BLOCK_SIZE && (hi <= at || at + |chunk| <= lo)
    ensures Patch(b, at, chunk)[lo..hi] == b[lo..hi]
  {
    var r := Patch(b, at, chunk);
    forall k | lo <= k < hi ensures r[k] == b[k] {}
  }

  // ----- 8-byte words ----------------------------------------------------

  /** The i-th block number stored in a block. */
  function WordAt(b: Block, i: nat): word
    requires i < K
  {
    LimitWord();
    Decode(b[8 * i..8 * i + 8])
  }

  /** Bytes read as consecutive 8-byte words. */
  function WordsOf(s: seq<byte>): (ws: seq<word>)
    ensures |ws| == |s| / 8
    decreases |s|
  {
    LimitWord();
    if |s| < 8 then [] else [Decode(s[..8])] + WordsOf(s[8..])
  }

  lemma {:induction false} WordsOfAt(s: seq<byte>, i: nat)
    requires 8 * i + 8 <= |s|
    ensures WordsOf(s)[i] == Decode(s[8 * i..8 * i + 8])
  {
    if i > 0 {
      var rest, at := s[8..], 8 * (i - 1);
      WordsOfAt(rest, i - 1);
      assert rest[at..at + 8] == s[at + 8..at + 16];
      assert WordsOf(s)[i] == WordsOf(s[8..])[i - 1];
    }
  }

  /** A block read as a `struct block_id_list`. */
  function Words(b: Block): (ws: seq<word>)
    ensures |ws| == K
  {
    WordsOf(b)
  }

  lemma WordsAt(b: Block, i: nat)
    requires i < K
    ensures Words(b)[i] == WordAt(b, i)
  {
    WordsOfAt(b, i);
  }

  /** Stores a block number in the i-th word of a block. */
  function SetWord(b: Block, i: nat, w: word): (r: Block)
    requires i < K
    ensures Words(r) == Words(b)[i := w]
  {
    var r := Patch(b, 8 * i, Encode(w, 8));
    SetWordReads(b, i, w, r);
    r
  }

  lemma SetWordReads(b: Block, i: nat, w: word, r: Block)
    requires i < K && r == Patch(b, 8 * i, Encode(w, 8))
    ensures Words(r) == Words(b)[i := w]
  {
    LimitWord();
    DecodeEncode(w, 8);
    forall j | 0 <= j < K ensures Words(r)[j] == Words(b)[i := w][j] {
      WordsAt(r, j);
      WordsAt(b, j);
      if j == i {
        assert r[8 * i..8 * i + 8] == Encode(w, 8);
      } else {
        assert r[8 * j..8 * j + 8] == b[8 * j..8 * j + 8];
      }
    }
  }

  lemma ZeroWords()
    ensures forall i :: 0 <= i < K ==> Words(ZERO)[i] == 0
  {
    forall i | 0 <= i < K ensures Words(ZERO)[i] == 0 {
      WordsAt(ZERO, i);
      DecodeZeros(ZERO[8 * i..8 * i + 8]);
    }
  }

  /** Two blocks with the same words are the same block. */
  lemma WordsInjective(a: Block, b: Block)
    requires Words(a) == Words(b)
    ensures a == b
  {
    forall j | 0 <= j < BLOCK_SIZE ensures a[j] == b[j] {
      var i := j / 8;
      WordsAt(a, i);
      WordsAt(b, i);
      EncodeDecode(a[8 * i..8 * i + 8]);
      EncodeDecode(b[8 * i..8 * i + 8]);
      assert a[j] == a[8 * i..8 * i + 8][j - 8 * i];
      assert b[j] == b[8 * i..8 * i + 8][j - 8 * i];
    }
  }
}
