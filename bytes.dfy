/** Byte-level decoding: the big-endian readers STR2DWORD_BE / STR2WORD_BE and
    the MIDI variable-length quantity reader ReadVarInt. The input stream is a
    sequence of byte values and a cursor into it. */
module Bytes {
  import opened Results

  const Two32: nat := 0x1_0000_0000

  /** A byte value as `fgetc` returns it. */
  type byte = b: int | 0 <= b < 256

  /** The value of `s` read as a big-endian unsigned integer of any width. */
  function BigEndian(s: seq<byte>): nat
  {
    if |s| == 0 then 0 else BigEndian(s[..|s| - 1]) * 256 + s[|s| - 1]
  }

  function Pow256(n: nat): nat { if n == 0 then 1 else 256 * Pow256(n - 1) }

  lemma {:induction false} BigEndianBound(s: seq<byte>)
    ensures BigEndian(s) < Pow256(|s|)
  {
    if |s| > 0 {
      var init := s[..|s| - 1];
      BigEndianBound(init);
      assert BigEndian(init) + 1 <= Pow256(|init|);
      assert (BigEndian(init) + 1) * 256 <= Pow256(|init|) * 256;
    }
  }

  /** STR2DWORD_BE: the four bytes at `i`, most significant first. */
  function Dword(s: seq<byte>, i: nat): nat
    requires i + 4 <= |s|
  {
    s[i] as int * 0x100_0000 + s[i + 1] as int * 0x1_0000 + s[i + 2] as int * 0x100 + s[i + 3]
  }

  /** STR2WORD_BE: the two bytes at `i`, most significant first. */
  function Word(s: seq<byte>, i: nat): nat
    requires i + 2 <= |s|
  {
    s[i] as int * 0x100 + s[i + 1]
  }

  /** The two fixed-width readers are the big-endian value of their bytes, so
      they are below 2^32 and 2^16. */
  lemma DwordIsBigEndian(s: seq<byte>, i: nat)
    requires i + 4 <= |s|
    ensures Dword(s, i) == BigEndian(s[i..i + 4]) && Dword(s, i) < Two32
  {
    var w4 := s[i..i + 4];
    var w3, w2, w1 := [s[i], s[i + 1], s[i + 2]], [s[i], s[i + 1]], [s[i]];
    assert w4[..3] == w3 && w3[..2] == w2 && w2[..1] == w1 && w1[..0] == [];
    assert BigEndian(w1) == s[i];
    assert BigEndian(w2) == s[i] as int * 256 + s[i + 1];
    assert BigEndian(w3) == (s[i] as int * 256 + s[i + 1]) * 256 + s[i + 2];
    assert BigEndian(w4) == ((s[i] as int * 256 + s[i + 1]) * 256 + s[i + 2]) * 256 + s[i + 3];
    BigEndianBound(w4);
  }

  lemma WordIsBigEndian(s: seq<byte>, i: nat)
    requires i + 2 <= |s|
    ensures Word(s, i) == BigEndian(s[i..i + 2]) && Word(s, i) < 0x1_0000
  {
    var w2 := s[i..i + 2];
    assert w2[..1] == [s[i]] && [s[i]][..0] == [];
    assert BigEndian([s[i]]) == s[i];
    BigEndianBound(w2);
  }

  /** The division word exceeds 32767 exactly when the high bit of its first
      byte is set: the SMPTE/MTC form of the time division. */
  lemma WordHighBit(s: seq<byte>, i: nat)
    requires i + 2 <= |s|
    ensures Word(s, i) > 32767 <==> s[i] >= 128
  {
  }

  /** The bytes of `x` most significant first, the inverse of Dword / Word. */
  function DwordBytes(x: nat): seq<byte>
  {
    var y := x / 256;
    var z := y / 256;
    [z / 256 % 256, z % 256, y % 256, x % 256]
  }

  function WordBytes(x: nat): seq<byte>
  {
    [x / 0x100 % 256, x % 256]
  }

  lemma DwordRoundTrip(x: nat, rest: seq<byte>)
    requires x < Two32
    ensures Dword(DwordBytes(x) + rest, 0) == x
  {
    var y := x / 256;
    var z := y / 256;
    assert z < 0x1_0000;
    assert z / 256 % 256 * 256 + z % 256 == z;
    assert Dword(DwordBytes(x) + rest, 0) == (z * 256 + y % 256) * 256 + x % 256;
  }

  lemma WordRoundTrip(x: nat, rest: seq<byte>)
    requires x < 0x1_0000
    ensures Word(WordBytes(x) + rest, 0) == x
  {
  }

  // ---------------------------------------------------------------------
  // Variable-length quantities

  datatype Decoded = Decoded(value: nat, next: nat)

  /** Decoding of a variable-length quantity from `pos` with `acc` accumulated
      so far. Each byte contributes its low seven bits, `acc = (acc << 7) |
      (b & 0x7F)` on a 32-bit accumulator; the first byte whose high bit is
      clear ends the quantity. Running out of input is a truncation. */
  function VarIntAt(s: seq<byte>, pos: nat, acc: nat): (r: Result<Decoded>)
    decreases |s| - pos
    ensures r.Fail? ==> r.error == TruncatedStream
    ensures r.Ok? ==> pos < r.value.next <= |s| && r.value.value < Two32
  {
    if pos >= |s| then Fail(TruncatedStream)
    else
      var acc' := (acc * 128 + s[pos] % 128) % Two32;
      if s[pos] >= 128 then VarIntAt(s, pos + 1, acc') else Ok(Decoded(acc', pos + 1))
  }

  /** A quantity ends at the first byte from `pos` whose high bit is clear,
      and decoding fails exactly when no such byte remains. */
  lemma {:induction false} VarIntEnd(s: seq<byte>, pos: nat, acc: nat)
    decreases |s| - pos
    ensures var r := VarIntAt(s, pos, acc);
      && (r.Ok? ==> s[r.value.next - 1] < 128 && forall i :: pos <= i < r.value.next - 1 ==> s[i] >= 128)
      && (r.Fail? <==> forall i :: pos <= i < |s| ==> s[i] >= 128)
  {
    if pos < |s| && s[pos] >= 128 {
      VarIntEnd(s, pos + 1, (acc * 128 + s[pos] % 128) % Two32);
    }
  }

  /** A read on the input cut at `k` gives the same quantity when it ends
      by `k`, and otherwise runs out of input. */
  lemma {:induction false} VarIntCut(s: seq<byte>, pos: nat, acc: nat, k: nat)
    requires pos <= k <= |s|
    ensures var r := VarIntAt(s, pos, acc);
      VarIntAt(s[..k], pos, acc) == if r.Ok? && r.value.next <= k then r else Fail(TruncatedStream)
    decreases |s| - pos
  {
    if pos < k && s[pos] >= 128 {
      VarIntCut(s, pos + 1, (acc * 128 + s[pos] % 128) % Two32, k);
    }
  }

  /** ReadVarInt: consumes bytes up to and including the first one with a
      clear high bit, and decrements the caller's byte budget once per byte. */
  method ReadVarInt(s: seq<byte>, pos: nat, budget: int) returns (r: Result<Decoded>, budget': int)
    ensures r == VarIntAt(s, pos, 0)
    ensures r.Ok? ==> budget' == budget - (r.value.next - pos)
  {
    var out: nat := 0;
    var p := pos;
    budget' := budget;
    while p < |s|
      invariant pos <= p
      invariant budget' == budget - (p - pos)
      invariant VarIntAt(s, p, out) == VarIntAt(s, pos, 0)
      decreases |s| - p
    {
      var b := s[p];
      p, budget' := p + 1, budget' - 1;
      out := (out * 128 + b % 128) % Two32;
      if b < 128 {
        return Ok(Decoded(out, p)), budget';
      }
    }
    r := Fail(TruncatedStream);
  }

  /** The seven-bit groups of `y`, most significant first, each with its high
      bit set: every byte of an encoding except the last. */
  function Continuation(y: nat): seq<byte>
    decreases y
  {
    if y == 0 then [] else Continuation(y / 128) + [128 + y % 128]
  }

  /** The variable-length quantity encoding of `x`. */
  function EncodeVarInt(x: nat): seq<byte>
  {
    Continuation(x / 128) + [x % 128]
  }

  /** The accumulator after the bytes `c` are shifted into `acc`. */
  function Shift(acc: nat, c: seq<byte>): nat
    decreases |c|
  {
    if |c| == 0 then acc else Shift((acc * 128 + c[0] % 128) % Two32, c[1..])
  }

  lemma {:induction false} ShiftSnoc(acc: nat, c: seq<byte>, b: byte)
    ensures Shift(acc, c + [b]) == (Shift(acc, c) * 128 + b % 128) % Two32
    decreases |c|
  {
    if |c| > 0 {
      assert (c + [b])[1..] == c[1..] + [b];
      ShiftSnoc((acc * 128 + c[0] % 128) % Two32, c[1..], b);
    }
  }

  /** Bytes with the high bit set do not end a quantity: the decoder reads
      through all of them, shifting each into the accumulator. */
  lemma {:induction false} ReadsThrough(s: seq<byte>, pos: nat, c: seq<byte>, acc: nat)
    requires pos + |c| <= |s|
    requires forall i :: 0 <= i < |c| ==> s[pos + i] == c[i] && c[i] >= 128
    ensures VarIntAt(s, pos, acc) == VarIntAt(s, pos + |c|, Shift(acc, c))
    decreases |c|
  {
    if |c| > 0 {
      ReadsThrough(s, pos + 1, c[1..], (acc * 128 + c[0] % 128) % Two32);
    }
  }

  lemma {:induction false} ContinuationShift(y: nat)
    requires y < Two32
    ensures Shift(0, Continuation(y)) == y
    decreases y
  {
    if y > 0 {
      ContinuationShift(y / 128);
      SevenBits(y);
      ShiftGroup(Continuation(y / 128), y / 128, y % 128);
    }
  }

  /** One more continuation byte carrying the group `r` appends it to the
      accumulated value, while that stays below 2^32. */
  lemma ShiftGroup(c: seq<byte>, q: nat, r: nat)
    requires Shift(0, c) == q && r < 128 && q * 128 + r < Two32
    ensures Shift(0, c + [128 + r]) == q * 128 + r
  {
    ShiftSnoc(0, c, 128 + r);
    GroupArithmetic(q, r);
  }

  lemma GroupArithmetic(q: nat, r: nat)
    requires r < 128 && q * 128 + r < Two32
    ensures (q * 128 + (128 + r) % 128) % Two32 == q * 128 + r
  {
  }

  /** The low seven bits of a continuation byte, and the split of `y` into
      its last seven-bit group and the rest. */
  lemma SevenBits(y: nat)
    ensures (128 + y % 128) % 128 == y % 128 && y / 128 * 128 + y % 128 == y
  {
  }

  lemma {:induction false} ContinuationHigh(y: nat)
    ensures forall i :: 0 <= i < |Continuation(y)| ==> 128 <= Continuation(y)[i] < 256
    decreases y
  {
    if y > 0 { ContinuationHigh(y / 128); }
  }

  /** `e` stands in `s` at position `pos`. */
  predicate Embedded(s: seq<byte>, pos: nat, e: seq<byte>)
  {
    pos + |e| <= |s| && forall i :: 0 <= i < |e| ==> s[pos + i] == e[i]
  }

  lemma EmbeddedSplit(s: seq<byte>, pos: nat, a: seq<byte>, b: seq<byte>)
    requires Embedded(s, pos, a + b)
    ensures Embedded(s, pos, a) && Embedded(s, pos + |a|, b)
  {
    forall i | 0 <= i < |a| ensures s[pos + i] == a[i] {
      assert (a + b)[i] == a[i];
    }
    forall i | 0 <= i < |b| ensures s[pos + |a| + i] == b[i] {
      assert (a + b)[|a| + i] == b[i];
    }
  }

  lemma EmbeddedAt(s: seq<byte>, pos: nat, e: seq<byte>, i: nat)
    requires Embedded(s, pos, e) && i < |e|
    ensures s[pos + i] == e[i]
  {
  }

  /** Decoding an encoded value returns it and stops right after its last
      byte, for every value a 32-bit accumulator holds, wherever the encoding
      stands in the stream. */
  lemma VarIntRoundTrip(s: seq<byte>, pos: nat, x: nat)
    requires x < Two32 && Embedded(s, pos, EncodeVarInt(x))
    ensures VarIntAt(s, pos, 0) == Ok(Decoded(x, pos + |EncodeVarInt(x)|))
  {
    var c := Continuation(x / 128);
    ContinuationHigh(x / 128);
    EmbeddedSplit(s, pos, c, [x % 128]);
    ReadsThrough(s, pos, c, 0);
    ContinuationShift(x / 128);
    EmbeddedAt(s, pos + |c|, [x % 128], 0);
    FinalByte(s, pos + |c|, x);
  }

  lemma FinalByte(s: seq<byte>, pos: nat, x: nat)
    requires pos < |s| && x < Two32 && s[pos] == x % 128
    ensures VarIntAt(s, pos, x / 128) == Ok(Decoded(x, pos + 1))
  {
    assert (x / 128 * 128 + x % 128) % Two32 == x;
  }

  function Pow128(n: nat): nat { if n == 0 then 1 else 128 * Pow128(n - 1) }

  lemma {:induction false} ContinuationLength(y: nat, n: nat)
    requires y < Pow128(n)
    ensures |Continuation(y)| <= n
  {
    if y > 0 {
      assert n > 0;
      ContinuationLength(y / 128, n - 1);
    }
  }

  /** The values up to 0x0FFFFFFF fit the four-byte limit of the format. */
  lemma VarIntLength(x: nat)
    requires x < 0x1000_0000
    ensures 1 <= |EncodeVarInt(x)| <= 4
  {
    assert Pow128(3) == 0x20_0000;
    ContinuationLength(x / 128, 3);
  }
}
