/** Bytes, little-endian 32-bit words and bitmap bits, as the kernel's casts of
    `buf->data` to `uint32_t *` and its `data[bi / 8] & (1 << bi % 8)` see them. */
module Bytes {

  type byte = x: int | 0 <= x < 256

  const WORD_LIMIT := 0x1_0000_0000
  type word = x: int | 0 <= x < WORD_LIMIT

  function Word(b: seq<byte>, i: nat): (w: word)
    requires 4 * i + 4 <= |b|
  {
    var b0: int, b1: int, b2: int, b3: int := b[4 * i], b[4 * i + 1], b[4 * i + 2], b[4 * i + 3];
    b0 + 0x100 * b1 + 0x1_0000 * b2 + 0x100_0000 * b3
  }

  function WordBytes(v: word): (b: seq<byte>)
    ensures |b| == 4
  {
    var q := v / 0x100;
    var r := q / 0x100;
    [v % 0x100, q % 0x100, r % 0x100, r / 0x100]
  }

  function SetWord(b: seq<byte>, i: nat, v: word): (r: seq<byte>)
    requires 4 * i + 4 <= |b|
    ensures |r| == |b|
  {
    b[..4 * i] + WordBytes(v) + b[4 * i + 4..]
  }

  function Zeros(n: nat): (b: seq<byte>)
    ensures |b| == n && forall k :: 0 <= k < n ==> b[k] == 0
  {
    seq(n, _ => 0)
  }

  lemma WordBytesRoundTrip(v: word)
    ensures Word(WordBytes(v), 0) == v
  {
    var q := v / 0x100;
    var r := q / 0x100;
    assert v == 0x100 * q + v % 0x100 && q == 0x100 * r + q % 0x100;
  }

  lemma BytesOfWord(b: seq<byte>, i: nat)
    requires 4 * i + 4 <= |b|
    ensures WordBytes(Word(b, i)) == b[4 * i..4 * i + 4]
  {
    var b0: int, b1: int, b2: int, b3: int := b[4 * i], b[4 * i + 1], b[4 * i + 2], b[4 * i + 3];
    var v := Word(b, i);
    var q := b1 + 0x100 * b2 + 0x1_0000 * b3;
    var r := b2 + 0x100 * b3;
    assert v == 0x100 * q + b0 && v / 0x100 == q && v % 0x100 == b0;
    assert q == 0x100 * r + b1 && q / 0x100 == r && q % 0x100 == b1;
    assert r / 0x100 == b3 && r % 0x100 == b2;
  }

  /** Storing a word and then what was there before changes nothing. */
  lemma SetWordBack(b: seq<byte>, i: nat, v: word)
    requires 4 * i + 4 <= |b|
    ensures SetWord(SetWord(b, i, v), i, Word(b, i)) == b && SetWord(b, i, Word(b, i)) == b
  {
    BytesOfWord(b, i);
    hide Word, WordBytes;
    assert b == b[..4 * i] + b[4 * i..4 * i + 4] + b[4 * i + 4..];
    assert SetWord(b, i, v)[..4 * i] == b[..4 * i] && SetWord(b, i, v)[4 * i + 4..] == b[4 * i + 4..];
  }

  /** A word write is seen at its own index and nowhere else. */
  lemma WordOfSetWord(b: seq<byte>, i: nat, v: word, j: nat)
    requires 4 * i + 4 <= |b| && 4 * j + 4 <= |b|
    ensures Word(SetWord(b, i, v), j) == if i == j then v else Word(b, j)
  {
    var r := SetWord(b, i, v);
    if i == j {
      WordBytesRoundTrip(v);
      assert r[4 * i..4 * i + 4] == WordBytes(v);
      assert forall k :: 0 <= k < 4 ==> r[4 * i + k] == WordBytes(v)[k];
    } else {
      assert r[4 * j] == b[4 * j] && r[4 * j + 1] == b[4 * j + 1];
      assert r[4 * j + 2] == b[4 * j + 2] && r[4 * j + 3] == b[4 * j + 3];
    }
  }

  lemma WordOfZeros(n: nat, i: nat)
    requires 4 * i + 4 <= n
    ensures Word(Zeros(n), i) == 0
  {
  }

  // ---- Bitmap bits ----

  /** `1 << k`. */
  function Mask(k: nat): (m: nat)
    ensures 1 <= m
  {
    if k == 0 then 1 else 2 * Mask(k - 1)
  }

  /** `(v & (1 << k)) != 0`. */
  predicate HasBit(v: nat, k: nat) {
    if k == 0 then v % 2 == 1 else HasBit(v / 2, k - 1)
  }

  predicate Bit(b: seq<byte>, i: nat)
    requires i / 8 < |b|
  {
    HasBit(b[i / 8], i % 8)
  }

  lemma {:induction false} AddMask(v: nat, k: nat, j: nat)
    requires !HasBit(v, k)
    ensures HasBit(v + Mask(k), j) <==> j == k || HasBit(v, j)
  {
    if k == 0 {
      assert (v + 1) / 2 == v / 2;
    } else if j == 0 {
      assert (v + Mask(k)) % 2 == v % 2;
    } else {
      assert (v + Mask(k)) / 2 == v / 2 + Mask(k - 1);
      AddMask(v / 2, k - 1, j - 1);
    }
  }

  lemma {:induction false} SubMask(v: nat, k: nat, j: nat)
    requires HasBit(v, k)
    ensures v >= Mask(k) && (HasBit(v - Mask(k), j) <==> j != k && HasBit(v, j))
  {
    if k == 0 {
      assert (v - 1) / 2 == v / 2;
    } else {
      SubMask(v / 2, k - 1, if j == 0 then 0 else j - 1);
      assert (v - Mask(k)) / 2 == v / 2 - Mask(k - 1);
      assert (v - Mask(k)) % 2 == v % 2;
    }
  }

  /** Setting a clear bit of an n-bit number leaves an n-bit number. */
  lemma {:induction false} AddMaskBound(v: nat, k: nat, n: nat)
    requires k < n && v < Mask(n) && !HasBit(v, k)
    ensures v + Mask(k) < Mask(n)
  {
    var m, h := Mask(n - 1), v / 2;
    assert Mask(n) == 2 * m && v == 2 * h + v % 2 && h < m;
    if k == 0 {
      assert v % 2 == 0 && Mask(0) == 1;
    } else {
      AddMaskBound(h, k - 1, n - 1);
      assert Mask(k) == 2 * Mask(k - 1);
      hide Mask;
      assert h + Mask(k - 1) <= m - 1;
    }
  }

  /** `data[i / 8] |= m` when the bit is clear. */
  function SetBit(b: seq<byte>, i: nat): (r: seq<byte>)
    requires i / 8 < |b| && !Bit(b, i)
    ensures |r| == |b|
  {
    assert Mask(8) == 256;
    AddMaskBound(b[i / 8], i % 8, 8);
    b[i / 8 := b[i / 8] + Mask(i % 8)]
  }

  /** `data[i / 8] &= ~m` when the bit is set. */
  function ClearBit(b: seq<byte>, i: nat): (r: seq<byte>)
    requires i / 8 < |b| && Bit(b, i)
    ensures |r| == |b|
  {
    SubMask(b[i / 8], i % 8, 0);
    b[i / 8 := b[i / 8] - Mask(i % 8)]
  }

  lemma BitOfSetBit(b: seq<byte>, i: nat, j: nat)
    requires i / 8 < |b| && j / 8 < |b| && !Bit(b, i)
    ensures Bit(SetBit(b, i), j) <==> j == i || Bit(b, j)
  {
    AddMask(b[i / 8], i % 8, j % 8);
    assert j == i <==> j / 8 == i / 8 && j % 8 == i % 8;
  }

  lemma BitOfClearBit(b: seq<byte>, i: nat, j: nat)
    requires i / 8 < |b| && j / 8 < |b| && Bit(b, i)
    ensures Bit(ClearBit(b, i), j) <==> j != i && Bit(b, j)
  {
    SubMask(b[i / 8], i % 8, j % 8);
    assert j == i <==> j / 8 == i / 8 && j % 8 == i % 8;
  }
}
