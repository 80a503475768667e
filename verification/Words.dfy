/**
 The machine's integers as the simulator stores them: 8-bit bytes, 32-bit words
 and 32-bit signed integers, the little-endian byte order in which all of them
 reach the disk, and the single-bit operations used on words.
 */
module Words {

  const WORD_LIMIT := 0x1_0000_0000

  type byte = x: int | 0 <= x < 256

  /** An `unsigned int`. */
  type word = x: int | 0 <= x < 0x1_0000_0000

  /** An `int`. */
  type int32 = x: int | -0x8000_0000 <= x < 0x8000_0000

  /** The bit pattern of an `int`. */
  function ToWord(x: int32): (w: word)
    ensures ToInt(w) == x
  {
    if x < 0 then x + WORD_LIMIT else x
  }

  /** The `int` with a given bit pattern. */
  function ToInt(w: word): (x: int32)
    ensures x % WORD_LIMIT == w
  {
    if w < 0x8000_0000 then w else w - WORD_LIMIT
  }

  /** A result that may be out of range, as two's complement arithmetic leaves it. */
  function Wrap(x: int): int32
  {
    ToInt(x % 0x1_0000_0000)
  }

  // ---------------------------------------------------------------- bytes

  /** Byte number `k` of a word, least significant first. */
  function ByteOf(w: word, k: nat): byte
    requires k < 4
  {
    if k == 0 then w % 256
    else if k == 1 then w / 256 % 256
    else if k == 2 then w / 256 / 256 % 256
    else w / 256 / 256 / 256
  }

  function Join(b0: byte, b1: byte, b2: byte, b3: byte): word
  {
    var high: int := b3;
    b0 + 256 * (b1 + 256 * (b2 + 256 * high))
  }

  function WordAt(b: seq<byte>, i: nat): word
    requires 4 * i + 4 <= |b|
  {
    Join(b[4 * i], b[4 * i + 1], b[4 * i + 2], b[4 * i + 3])
  }

  /** The number whose digits to the base 256 are the bytes, the least significant one first. */
  function Digits(b: seq<byte>): nat
  {
    if b == [] then 0 else b[0] + 256 * Digits(b[1..])
  }

  lemma FourDigits(b: seq<byte>)
    requires |b| == 4
    ensures Digits(b) == Join(b[0], b[1], b[2], b[3])
  {
    assert b[1..][1..] == b[2..] && b[2..][1..] == b[3..] && b[3..][1..] == [];
    assert Digits(b[3..]) == b[3] as int;
    assert Digits(b[2..]) == b[2] + 256 * Digits(b[3..]);
    assert Digits(b[1..]) == b[1] + 256 * Digits(b[2..]);
  }

  /** A word in memory has its least significant byte first. */
  lemma WordIs(b: seq<byte>, i: nat)
    requires 4 * i + 4 <= |b|
    ensures WordAt(b, i) == Digits(b[4 * i..4 * i + 4])
  {
    FourDigits(b[4 * i..4 * i + 4]);
  }

  lemma BytesJoin(w: word)
    ensures Join(ByteOf(w, 0), ByteOf(w, 1), ByteOf(w, 2), ByteOf(w, 3)) == w
  {
    var v := w / 256;
    var u := v / 256;
    assert w == w % 256 + 256 * v;
    assert v == v % 256 + 256 * u;
    assert u == u % 256 + 256 * (u / 256);
  }

  /** The bytes an array of words occupies in memory. */
  function EncodeWords(ws: seq<word>): (b: seq<byte>)
    ensures |b| == 4 * |ws|
  {
    seq(4 * |ws|, j requires 0 <= j < 4 * |ws| => ByteOf(ws[j / 4], j % 4))
  }

  /** The words found in memory that holds the bytes `b`. */
  function DecodeWords(b: seq<byte>): (ws: seq<word>)
    ensures |ws| == |b| / 4
  {
    seq(|b| / 4, i requires 0 <= i < |b| / 4 => WordAt(b, i))
  }

  lemma WordAtEncoded(ws: seq<word>, i: nat)
    requires i < |ws|
    ensures WordAt(EncodeWords(ws), i) == ws[i]
  {
    var b := EncodeWords(ws);
    assert b[4 * i] == ByteOf(ws[i], 0);
    assert b[4 * i + 1] == ByteOf(ws[i], 1);
    assert b[4 * i + 2] == ByteOf(ws[i], 2);
    assert b[4 * i + 3] == ByteOf(ws[i], 3);
    BytesJoin(ws[i]);
  }

  lemma DecodeEncodeWords(ws: seq<word>)
    ensures DecodeWords(EncodeWords(ws)) == ws
  {
    forall i | 0 <= i < |ws|
      ensures WordAt(EncodeWords(ws), i) == ws[i]
    {
      WordAtEncoded(ws, i);
    }
  }

  // ----------------------------------------------------------------- bits

  function Pow2(k: nat): (p: int)
    ensures p >= 1
  {
    if k == 0 then 1 else 2 * Pow2(k - 1)
  }

  /** `w & (1 << k)` is not zero. */
  predicate Bit(w: nat, k: nat)
  {
    if k == 0 then w % 2 == 1 else Bit(w / 2, k - 1)
  }

  /** Bit `k` is the digit of `2` to the power of `k`. */
  lemma {:induction false} BitIs(w: nat, k: nat)
    ensures Bit(w, k) <==> w / Pow2(k) % 2 == 1
  {
    if k > 0 {
      BitIs(w / 2, k - 1);
      DivTwice(w, Pow2(k - 1));
    }
  }

  lemma DivTwice(w: nat, p: int)
    requires p >= 1
    ensures w / 2 / p == w / (2 * p)
  {
    var q, r := w / (2 * p), w % (2 * p);
    assert w == (2 * p) * q + r;
    assert w / 2 == p * q + r / 2;
    assert 0 <= r / 2 < p;
    DivUnique(w / 2, p, q, r / 2);
  }

  lemma DivUnique(x: nat, p: int, q: nat, r: nat)
    requires p >= 1 && x == p * q + r && r < p
    ensures x / p == q
  {
    var d := x / p - q;
    assert p * d == r - x % p;
    assert -p < p * d < p;
  }

  /** `w | (1 << k)` */
  function SetBit(w: nat, k: nat): nat
  {
    if k == 0 then w / 2 * 2 + 1 else w % 2 + 2 * SetBit(w / 2, k - 1)
  }

  /** `w & ~(1 << k)` */
  function ClearBit(w: nat, k: nat): nat
  {
    if k == 0 then w / 2 * 2 else w % 2 + 2 * ClearBit(w / 2, k - 1)
  }

  lemma {:induction false} BitAfterSet(w: nat, k: nat, j: nat)
    ensures Bit(SetBit(w, k), j) <==> j == k || Bit(w, j)
  {
    if k > 0 && j > 0 {
      BitAfterSet(w / 2, k - 1, j - 1);
    }
  }

  lemma {:induction false} BitAfterClear(w: nat, k: nat, j: nat)
    ensures Bit(ClearBit(w, k), j) <==> j != k && Bit(w, j)
  {
    if k > 0 && j > 0 {
      BitAfterClear(w / 2, k - 1, j - 1);
    }
  }

  /** Setting or clearing one of its `n` bits keeps a number within `n` bits. */
  lemma {:induction false} BitsStayInWidth(w: nat, k: nat, n: nat)
    requires k < n && w < Pow2(n)
    ensures SetBit(w, k) < Pow2(n) && ClearBit(w, k) < Pow2(n)
  {
    if k > 0 {
      BitsStayInWidth(w / 2, k - 1, n - 1);
    }
  }

  /** Numbers of the same width with the same bits are equal. */
  lemma {:induction false} BitsDetermine(v: nat, w: nat, n: nat)
    requires v < Pow2(n) && w < Pow2(n)
    requires forall k: nat | k < n :: Bit(v, k) == Bit(w, k)
    ensures v == w
  {
    if n > 0 {
      assert Bit(v, 0) == Bit(w, 0);
      forall k: nat | k < n - 1
        ensures Bit(v / 2, k) == Bit(w / 2, k)
      {
        assert Bit(v, k + 1) == Bit(w, k + 1);
      }
      BitsDetermine(v / 2, w / 2, n - 1);
    }
  }

  lemma WordWidth()
    ensures Pow2(32) == WORD_LIMIT
  {
    assert Pow2(8) == 256;
    assert Pow2(16) == 65536;
    assert Pow2(24) == 16777216;
  }
}
