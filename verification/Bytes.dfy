/** Bytes, and whole numbers written big-endian in a fixed number of them. */
module Bytes {
  import opened Results

  type Byte = n: nat | n < 256

  function Pow256(width: nat): (p: nat)
    ensures p > 0
  {
    if width == 0 then 1 else 256 * Pow256(width - 1)
  }

  function BigEndian(n: nat, width: nat): (bytes: seq<Byte>)
    ensures |bytes| == width
  {
    if width == 0 then [] else BigEndian(n / 256, width - 1) + [n % 256]
  }

  function FromBigEndian(bytes: seq<Byte>): nat {
    if bytes == [] then 0 else 256 * FromBigEndian(bytes[..|bytes| - 1]) + bytes[|bytes| - 1]
  }

  /** A number that fits is read back as written. */
  lemma {:induction false} BigEndianRoundTrip(n: nat, width: nat)
    requires n < Pow256(width)
    ensures FromBigEndian(BigEndian(n, width)) == n
  {
    if width > 0 {
      BigEndianRoundTrip(n / 256, width - 1);
      assert BigEndian(n, width)[..width - 1] == BigEndian(n / 256, width - 1);
    }
  }

  lemma {:induction false} FromBigEndianFits(bytes: seq<Byte>)
    ensures FromBigEndian(bytes) < Pow256(|bytes|)
  {
    if bytes != [] {
      FromBigEndianFits(bytes[..|bytes| - 1]);
    }
  }

  /** Any bytes are the ones written for the number they read as. */
  lemma {:induction false} FromBigEndianRoundTrip(bytes: seq<Byte>)
    ensures BigEndian(FromBigEndian(bytes), |bytes|) == bytes
  {
    if bytes != [] {
      var front := bytes[..|bytes| - 1];
      FromBigEndianRoundTrip(front);
      assert FromBigEndian(bytes) / 256 == FromBigEndian(front);
      assert bytes == front + [bytes[|bytes| - 1]];
    }
  }

  lemma Widths()
    ensures Pow256(2) == 0x1_0000 && Pow256(4) == 0x1_0000_0000 && Pow256(8) == 0x1_0000_0000_0000_0000
  {
    assert Pow256(1) == 256 && Pow256(2) == 256 * 256;
    assert Pow256(3) == 256 * 256 * 256 && Pow256(4) == 256 * 256 * 256 * 256;
    assert Pow256(5) == 256 * Pow256(4) && Pow256(6) == 256 * Pow256(5);
    assert Pow256(7) == 256 * Pow256(6) && Pow256(8) == 256 * Pow256(7);
  }

  /** The first byte weighs the most: 256 times what the next one would, and so on down to the last. */
  lemma {:induction false} FirstByteWeighsMost(first: Byte, bytes: seq<Byte>)
    ensures FromBigEndian([first] + bytes) == first * Pow256(|bytes|) + FromBigEndian(bytes)
    decreases |bytes|
  {
    var all := [first] + bytes;
    if bytes == [] {
      assert all[..0] == [];
    } else {
      var n := |bytes| - 1;
      assert all[..|all| - 1] == [first] + bytes[..n];
      FirstByteWeighsMost(first, bytes[..n]);
      assert 256 * (first * Pow256(n)) == first * Pow256(n + 1);
    }
  }

  /** Four bytes as a number. */
  lemma FourBytes(a: Byte, b: Byte, c: Byte, d: Byte)
    ensures FromBigEndian([a, b, c, d]) == 0x100_0000 * a + 0x1_0000 * b + 0x100 * c + d
  {
    Widths();
    FirstByteWeighsMost(a, [b, c, d]);
    FirstByteWeighsMost(b, [c, d]);
    FirstByteWeighsMost(c, [d]);
    assert [a] + [b, c, d] == [a, b, c, d] && [b] + [c, d] == [b, c, d] && [c] + [d] == [c, d] && [d][..0] == [];
    assert Pow256(1) == 256 && Pow256(3) == 256 * Pow256(2);
  }

  /** A number below 256 in four bytes: three zeros and the number. */
  lemma SmallNumber(n: Byte)
    ensures BigEndian(n, 4) == [0, 0, 0, n]
  {
    assert BigEndian(n / 256, 3) == BigEndian(0, 2) + [0] && BigEndian(0, 2) == BigEndian(0, 1) + [0];
    assert BigEndian(0, 1) == BigEndian(0, 0) + [0];
  }

  /** Two's complement, as the 32-bit signed numbers on the wire are written. */
  function Signed32(n: nat): int {
    if n < 0x8000_0000 then n else n - 0x1_0000_0000
  }

  function Unsigned32(n: int): nat
    requires -0x8000_0000 <= n < 0x8000_0000
  {
    if n >= 0 then n else n + 0x1_0000_0000
  }

  // The framing the guest protocols share: a magic value, one byte of code, a length, a body.

  const FRAME_HEADER: nat := 9

  function Framed(magic: seq<Byte>, code: Byte, body: seq<Byte>): seq<Byte> {
    magic + [code] + BigEndian(|body|, 4) + body
  }

  /** Whether bytes start with a header of this protocol whose length is that of what follows it. */
  predicate IsFrame(magic: seq<Byte>, bytes: seq<Byte>) {
    && |bytes| >= FRAME_HEADER
    && bytes[..4] == magic
    && FromBigEndian(bytes[5..9]) == |bytes| - FRAME_HEADER
  }

  /** Framing and its check are exact inverses. */
  lemma FrameExactly(magic: seq<Byte>, bytes: seq<Byte>, code: Byte, body: seq<Byte>)
    requires |magic| == 4 && |body| < 0x1_0000_0000
    ensures bytes == Framed(magic, code, body) <==> IsFrame(magic, bytes) && bytes[4] == code && bytes[9..] == body
  {
    Widths();
    if bytes == Framed(magic, code, body) {
      BigEndianRoundTrip(|body|, 4);
      assert bytes[..4] == magic && bytes[5..9] == BigEndian(|body|, 4) && bytes[9..] == body;
    }
    if IsFrame(magic, bytes) && bytes[4] == code && bytes[9..] == body {
      FromBigEndianRoundTrip(bytes[5..9]);
      assert bytes == bytes[..4] + [bytes[4]] + bytes[5..9] + bytes[9..];
    }
  }

  // Fields inside a body: numbers of a fixed width, and bytes behind a 32-bit length.

  function Field(value: seq<Byte>): seq<Byte> {
    BigEndian(|value|, 4) + value
  }

  function TakeNumber(bytes: seq<Byte>, width: nat): Option<(nat, seq<Byte>)> {
    if |bytes| < width then None else Some((FromBigEndian(bytes[..width]), bytes[width..]))
  }

  function TakeField(bytes: seq<Byte>): Option<(seq<Byte>, seq<Byte>)> {
    var length := TakeNumber(bytes, 4);
    if length.None? || length.value.0 > |length.value.1| then None
    else
      var (n, rest) := length.value;
      Some((rest[..n], rest[n..]))
  }

  lemma TakeNumberExactly(bytes: seq<Byte>, width: nat, n: nat, rest: seq<Byte>)
    requires n < Pow256(width)
    ensures TakeNumber(bytes, width) == Some((n, rest)) <==> bytes == BigEndian(n, width) + rest
  {
    if TakeNumber(bytes, width) == Some((n, rest)) {
      FromBigEndianRoundTrip(bytes[..width]);
      assert bytes == bytes[..width] + bytes[width..];
    }
    if bytes == BigEndian(n, width) + rest {
      BigEndianRoundTrip(n, width);
      assert bytes[..width] == BigEndian(n, width) && bytes[width..] == rest;
    }
  }

  lemma TakeNumberFits(bytes: seq<Byte>, width: nat)
    requires TakeNumber(bytes, width).Some?
    ensures TakeNumber(bytes, width).value.0 < Pow256(width)
  {
    FromBigEndianFits(bytes[..width]);
  }

  lemma TakeFieldFits(bytes: seq<Byte>)
    requires TakeField(bytes).Some?
    ensures |TakeField(bytes).value.0| < 0x1_0000_0000
  {
    Widths();
    TakeNumberFits(bytes, 4);
  }

  /** A field is taken off bytes exactly when they start with it. */
  lemma TakeFieldExactly(bytes: seq<Byte>, value: seq<Byte>, rest: seq<Byte>)
    requires |value| < 0x1_0000_0000
    ensures TakeField(bytes) == Some((value, rest)) <==> bytes == Field(value) + rest
  {
    var after := value + rest;
    Widths();
    TakeNumberExactly(bytes, 4, |value|, after);
    assert Field(value) + rest == BigEndian(|value|, 4) + after;
    assert after[..|value|] == value && after[|value|..] == rest;
    if TakeField(bytes) == Some((value, rest)) {
      var (n, left) := TakeNumber(bytes, 4).value;
      assert left == left[..n] + left[n..];
    }
  }
}
