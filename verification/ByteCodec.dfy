/** Little-endian words in byte sequences, as the packet senders and receivers copy them. */
module ByteCodec {
  type Byte = b: nat | b < 256

  const WORD := 0x1_0000_0000
  const SHORT := 0x1_0000

  type Word = w: nat | w < WORD

  /** Single-precision floats: the word each real is rounded to, and the real a word stands for. */
  datatype Floats = Floats(bits: real -> Word, value: Word -> real) {
    /** A real after one trip through single precision. */
    function Rounded(x: real): real { value(bits(x)) }
  }

  /** Two's complement with `modulus` many values. */
  function Unsigned(x: int, modulus: nat): (w: nat)
    requires -(modulus / 2) <= x < modulus / 2
    ensures w < modulus && Signed(w, modulus) == x
  {
    if x >= 0 then x else x + modulus
  }

  function Signed(w: nat, modulus: nat): int { if w < modulus / 2 then w else w - modulus }

  /** The `n` low bytes of a value, lowest first. */
  function Bytes(w: nat, n: nat): (s: seq<Byte>)
    ensures |s| == n
  {
    if n == 0 then [] else [w % 256] + Bytes(w / 256, n - 1)
  }

  function Value(s: seq<Byte>): nat {
    if s == [] then 0 else s[0] + 256 * Value(s[1..])
  }

  function Power(n: nat): (p: nat)
    ensures p > 0
  {
    if n == 0 then 1 else 256 * Power(n - 1)
  }

  lemma {:induction false} BytesRoundTrip(w: nat, n: nat)
    requires w < Power(n)
    ensures Value(Bytes(w, n)) == w
  {
    if n > 0 {
      BytesRoundTrip(w / 256, n - 1);
      assert Bytes(w, n)[1..] == Bytes(w / 256, n - 1);
    }
  }

  lemma PowersOfBytes()
    ensures Power(2) == SHORT && Power(4) == WORD
  {
    assert Power(1) == 256 && Power(2) == 256 * 256 && Power(3) == 256 * 256 * 256;
  }

  lemma {:induction false} ValueFits(s: seq<Byte>)
    ensures Value(s) < Power(|s|)
  {
    if s != [] {
      ValueFits(s[1..]);
    }
  }

  /** The value of the `n` bytes at an offset. */
  function Read(s: seq<Byte>, offset: nat, n: nat): nat
    requires offset + n <= |s|
  {
    Value(s[offset..offset + n])
  }

  function ReadWord(s: seq<Byte>, offset: nat): Word
    requires offset + 4 <= |s|
  {
    PowersOfBytes();
    ValueFits(s[offset..offset + 4]);
    Read(s, offset, 4)
  }

  /** Words one after another. */
  function Words(ws: seq<Word>): (s: seq<Byte>)
    ensures |s| == 4 * |ws|
  {
    if ws == [] then [] else Words(ws[..|ws| - 1]) + Bytes(ws[|ws| - 1], 4)
  }

  lemma {:induction false} WordBytes(ws: seq<Word>, k: nat)
    requires k < |ws|
    ensures Words(ws)[4 * k..4 * k + 4] == Bytes(ws[k], 4)
  {
    var front := ws[..|ws| - 1];
    if k < |front| {
      WordBytes(front, k);
      assert Words(ws)[4 * k..4 * k + 4] == Words(front)[4 * k..4 * k + 4];
    }
  }

  /** Reading a word back from where it was written. */
  lemma ReadBack(head: seq<Byte>, ws: seq<Word>, tail: seq<Byte>, k: nat)
    requires k < |ws|
    ensures ReadWord(head + Words(ws) + tail, |head| + 4 * k) == ws[k]
  {
    hide Words, Bytes;
    var s := head + Words(ws) + tail;
    assert s[|head| + 4 * k..|head| + 4 * k + 4] == Words(ws)[4 * k..4 * k + 4];
    WordBytes(ws, k);
    PowersOfBytes();
    BytesRoundTrip(ws[k], 4);
  }

  /** The sequence with `bytes` written over it at an offset. */
  function Splice(s: seq<Byte>, offset: nat, bytes: seq<Byte>): (r: seq<Byte>)
    requires offset + |bytes| <= |s|
    ensures |r| == |s|
  {
    s[..offset] + bytes + s[offset + |bytes|..]
  }

  lemma SpliceMore(s: seq<Byte>, offset: nat, a: seq<Byte>, b: seq<Byte>)
    requires offset + |a| + |b| <= |s|
    ensures Splice(Splice(s, offset, a), offset + |a|, b) == Splice(s, offset, a + b)
  {
  }

  /** Copying the `n` bytes of a value into a buffer. */
  method PutAt(buf: array<Byte>, offset: nat, w: nat, n: nat)
    requires offset + n <= buf.Length
    modifies buf
    ensures buf[..] == Splice(old(buf[..]), offset, Bytes(w, n))
  {
    var bytes := Bytes(w, n);
    hide Bytes;
    assert bytes[..n] == bytes;
    for k := 0 to n
      invariant buf[..] == Splice(old(buf[..]), offset, bytes[..k])
    {
      SpliceMore(old(buf[..]), offset, bytes[..k], [bytes[k]]);
      assert bytes[..k] + [bytes[k]] == bytes[..k + 1];
      buf[offset + k] := bytes[k];
      assert buf[..] == Splice(Splice(old(buf[..]), offset, bytes[..k]), offset + k, [bytes[k]]);
    }
  }
}
