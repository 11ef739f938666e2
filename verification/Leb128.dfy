/** The unsigned LEB128 reader of the Companion's build, and the encoding of
    section 5.2.2 of the WebAssembly Core Specification it is meant to invert. */
module Leb128 {
  import opened Strings

  type Byte = b: int | 0 <= b < 256

  const TWO_TO_32: nat := 0x1_0000_0000

  // ---------------------------------------------------------------- JavaScript's 32-bit arithmetic

  function Pow2(k: nat): (p: nat)
    ensures p > 0
  {
    if k == 0 then 1 else 2 * Pow2(k - 1)
  }

  /** `a | b` on bit patterns. */
  function BitOr(a: nat, b: nat): nat {
    if a == 0 && b == 0 then 0
    else (if a % 2 == 1 || b % 2 == 1 then 1 else 0) + 2 * BitOr(a / 2, b / 2)
  }

  /** `x << s` as an unsigned 32-bit pattern: the count is taken modulo 32. */
  function Shl32(x: nat, s: nat): nat {
    (x * Pow2(s % 32)) % TWO_TO_32
  }

  lemma Powers()
    ensures Pow2(7) == 128 && Pow2(14) == 16384 && Pow2(21) == 2097152
    ensures Pow2(28) == 268435456 && Pow2(32) == 4294967296
    ensures Pow2(0) == 1 && Pow2(3) == 8 && Pow2(4) == 16 && Pow2(11) == 2048
    ensures Pow2(18) == 262144 && Pow2(25) == 33554432
  {
    assert Pow2(4) == 16;
    assert Pow2(8) == 256;
    assert Pow2(12) == 4096;
    assert Pow2(16) == 65536;
    assert Pow2(20) == 1048576;
    assert Pow2(24) == 16777216;
  }

  /** Bits that do not overlap add. */
  lemma {:induction false} OrOfDisjoint(a: nat, b: nat, k: nat)
    requires a < Pow2(k)
    ensures BitOr(a, b * Pow2(k)) == a + b * Pow2(k)
  {
    if k == 0 {
      OrWithZero(b);
    } else {
      var shifted := b * Pow2(k);
      assert shifted == 2 * (b * Pow2(k - 1));
      assert shifted / 2 == b * Pow2(k - 1) && shifted % 2 == 0;
      OrOfDisjoint(a / 2, b, k - 1);
    }
  }

  lemma {:induction false} OrWithZero(b: nat)
    ensures BitOr(0, b) == b
  {
    if b > 0 {
      OrWithZero(b / 2);
    }
  }

  lemma {:induction false} OrStaysWithin(a: nat, b: nat, k: nat)
    requires a < Pow2(k) && b < Pow2(k)
    ensures BitOr(a, b) < Pow2(k)
  {
    if k > 0 {
      OrStaysWithin(a / 2, b / 2, k - 1);
    }
  }

  // ---------------------------------------------------------------- the reader

  /** The reader's loop from `cursor`, having read `result` from `shift` bits. */
  function ReadFrom(bytes: seq<Byte>, cursor: nat, result: nat, shift: nat): Option<(nat, nat)>
    decreases |bytes| - cursor
  {
    if cursor >= |bytes| || shift > 35 then None
    else
      var byte := bytes[cursor];
      var more := BitOr(result, Shl32(byte % 128, shift));
      if byte < 128 then Some((more, cursor + 1)) else ReadFrom(bytes, cursor + 1, more, shift + 7)
  }

  function Read(bytes: seq<Byte>, at: nat): Option<(nat, nat)> {
    ReadFrom(bytes, at, 0, 0)
  }

  method ReadLeb128(bytes: array<Byte>, at: nat) returns (r: Option<(nat, nat)>)
    ensures r == Read(bytes[..], at)
  {
    var result: nat, shift: nat, cursor: nat := 0, 0, at;
    while true
      invariant shift <= 42
      invariant ReadFrom(bytes[..], cursor, result, shift) == Read(bytes[..], at)
      decreases 42 - shift
    {
      if cursor >= bytes.Length || shift > 35 {
        return None;
      }
      var byte := bytes[cursor];
      cursor := cursor + 1;
      result := BitOr(result, Shl32(byte % 128, shift));
      if byte < 128 {
        return Some((result, cursor));
      }
      shift := shift + 7;
    }
  }

  // ---------------------------------------------------------------- the standard

  /** The value `enc` encodes as an unsigned integer of `bits` bits (section 5.2.2):
      a byte below 128 and below 2^bits stands for itself and ends the encoding; any
      other leads an encoding of the bits above its lower seven. */
  function Decode(bits: nat, enc: seq<Byte>): Option<nat> {
    if enc == [] then None
    else if enc[0] < 128 then
      if |enc| == 1 && enc[0] < Pow2(bits) then Some(enc[0]) else None
    else if bits <= 7 then None
    else
      match Decode(bits - 7, enc[1..])
      case None => None
      case Some(m) => Some(128 * m + (enc[0] - 128))
  }

  lemma {:induction false} DecodedFits(bits: nat, enc: seq<Byte>)
    requires Decode(bits, enc).Some?
    ensures Decode(bits, enc).value < Pow2(bits)
  {
    if enc[0] >= 128 {
      DecodedFits(bits - 7, enc[1..]);
      Pow2Seven(bits - 7);
    }
  }

  lemma Pow2Seven(k: nat)
    ensures Pow2(k + 7) == 128 * Pow2(k)
  {
    assert Pow2(k + 2) == 4 * Pow2(k);
    assert Pow2(k + 4) == 4 * Pow2(k + 2);
    assert Pow2(k + 6) == 4 * Pow2(k + 4);
  }

  // ---------------------------------------------------------------- the reader inverts the encoding

  lemma ShiftWithin(x: nat, shift: nat, p: nat)
    requires shift < 32 && p == Pow2(shift) && x * p < TWO_TO_32
    ensures Shl32(x, shift) == x * p
  {
    assert shift % 32 == shift;
  }

  lemma Scaled(a: nat, b: nat, p: nat)
    requires a <= b
    ensures a * p <= b * p
  {
  }

  /** One byte's seven bits, put above the bits read so far. */
  lemma OneByte(result: nat, x: nat, shift: nat, p: nat)
    requires shift < 32 && p == Pow2(shift)
    requires result < p && x < 128 && x * p < TWO_TO_32
    ensures BitOr(result, Shl32(x, shift)) == result + x * p < 128 * p
  {
    ShiftWithin(x, shift, p);
    OrOfDisjoint(result, x, shift);
    Scaled(x + 1, 128, p);
  }

  lemma BelowTheTop(x: nat, shift: nat, p: nat)
    requires shift == 0 || shift == 7 || shift == 14 || shift == 21 || shift == 28
    requires p == Pow2(shift)
    requires x < 128 && (shift < 28 || x < 16)
    ensures x * p < TWO_TO_32
  {
    Powers();
  }

  /** One turn of the reader's loop, on a byte the standard allows there. */
  lemma OneTurn(bytes: seq<Byte>, cursor: nat, result: nat, shift: nat, p: nat, more: nat)
    requires shift == 0 || shift == 7 || shift == 14 || shift == 21 || shift == 28
    requires p == Pow2(shift) && result < p
    requires cursor < |bytes| && (shift < 28 || bytes[cursor] < 16)
    requires more == result + bytes[cursor] % 128 * p
    ensures ReadFrom(bytes, cursor, result, shift)
         == if bytes[cursor] < 128 then Some((more, cursor + 1)) else ReadFrom(bytes, cursor + 1, more, shift + 7)
    ensures more < 128 * p == Pow2(shift + 7)
  {
    var x := bytes[cursor] % 128;
    BelowTheTop(x, shift, p);
    OneByte(result, x, shift, p);
    Pow2Seven(shift);
  }

  lemma OneDigit(shift: nat, enc: seq<Byte>, m: nat)
    requires shift <= 28 && Decode(32 - shift, enc) == Some(m)
    ensures enc != [] && (shift == 28 ==> enc[0] < 16)
    ensures enc[0] < 128 ==> |enc| == 1 && m == enc[0]
    ensures enc[0] >= 128 ==> shift < 25 && exists m': nat :: Decode(25 - shift, enc[1..]) == Some(m') && m == 128 * m' + enc[0] % 128
  {
    Powers();
    if enc[0] >= 128 {
      assert Decode(32 - shift - 7, enc[1..]).Some?;
    }
  }

  /** What one turn leaves to read, and what has been read after it. */
  lemma NextTurn(bytes: seq<Byte>, cursor: nat, enc: seq<Byte>, m: nat, result: nat, shift: nat, p: nat)
    returns (m': nat, more: nat)
    requires shift == 0 || shift == 7 || shift == 14 || shift == 21 || shift == 28
    requires p == Pow2(shift) && result < p
    requires Decode(32 - shift, enc) == Some(m) && enc[0] >= 128
    requires cursor < |bytes| && bytes[cursor] == enc[0]
    ensures shift <= 21 && Decode(25 - shift, enc[1..]) == Some(m')
    ensures more < 128 * p == Pow2(shift + 7)
    ensures more + m' * (128 * p) == result + m * p
    ensures ReadFrom(bytes, cursor, result, shift) == ReadFrom(bytes, cursor + 1, more, shift + 7)
  {
    OneDigit(shift, enc, m);
    var x: nat := enc[0] % 128;
    Scaled(0, x, p);
    more := result + x * p;
    OneTurn(bytes, cursor, result, shift, p, more);
    m' :| Decode(25 - shift, enc[1..]) == Some(m') && m == 128 * m' + x;
    DigitUp(p, m, m', x);
  }

  lemma NextSlice(bytes: seq<Byte>, cursor: nat, enc: seq<Byte>)
    requires enc != [] && cursor + |enc| <= |bytes| && bytes[cursor..cursor + |enc|] == enc
    ensures bytes[cursor] == enc[0] && bytes[cursor + 1..cursor + 1 + |enc[1..]|] == enc[1..]
  {
    assert bytes[cursor + 1..cursor + |enc|] == bytes[cursor..cursor + |enc|][1..];
  }

  /** The last byte of an encoding ends the reading. */
  lemma LastTurn(bytes: seq<Byte>, cursor: nat, m: nat, result: nat, shift: nat, p: nat)
    requires shift == 0 || shift == 7 || shift == 14 || shift == 21 || shift == 28
    requires p == Pow2(shift) && result < p
    requires cursor < |bytes| && m == bytes[cursor] < 128 && (shift < 28 || m < 16)
    ensures ReadFrom(bytes, cursor, result, shift) == Some((result + m * p, cursor + 1))
  {
    BelowTheTop(m, shift, p);
    OneByte(result, m, shift, p);
    ReadEnds(bytes, cursor, result, shift, result + m * p);
  }

  lemma ReadEnds(bytes: seq<Byte>, cursor: nat, result: nat, shift: nat, more: nat)
    requires cursor < |bytes| && bytes[cursor] < 128 && shift <= 35
    requires BitOr(result, Shl32(bytes[cursor], shift)) == more
    ensures ReadFrom(bytes, cursor, result, shift) == Some((more, cursor + 1))
  {
    assert bytes[cursor] % 128 == bytes[cursor];
  }

  lemma {:induction false} ReadFromDecodes(bytes: seq<Byte>, cursor: nat, enc: seq<Byte>, m: nat, result: nat, shift: nat, p: nat)
    requires shift == 0 || shift == 7 || shift == 14 || shift == 21 || shift == 28
    requires p == Pow2(shift) && result < p
    requires Decode(32 - shift, enc) == Some(m)
    requires cursor + |enc| <= |bytes| && bytes[cursor..cursor + |enc|] == enc
    ensures ReadFrom(bytes, cursor, result, shift) == Some((result + m * p, cursor + |enc|))
    decreases |enc|
  {
    OneDigit(shift, enc, m);
    NextSlice(bytes, cursor, enc);
    if enc[0] < 128 {
      LastTurn(bytes, cursor, m, result, shift, p);
    } else {
      var m', more := NextTurn(bytes, cursor, enc, m, result, shift, p);
      ReadFromDecodes(bytes, cursor + 1, enc[1..], m', more, shift + 7, 128 * p);
    }
  }

  lemma DigitUp(p: nat, m: nat, m': nat, x: nat)
    requires m == 128 * m' + x
    ensures x * p + m' * (128 * p) == m * p
  {
  }

  /** At any offset, any encoding of `n` reads as `n`, and the reader stops just
      past it. */
  lemma InvertsTheStandard(bytes: seq<Byte>, at: nat, enc: seq<Byte>, n: nat)
    requires Decode(32, enc) == Some(n)
    requires at + |enc| <= |bytes| && bytes[at..at + |enc|] == enc
    ensures Read(bytes, at) == Some((n, at + |enc|))
  {
    var shift := 0;
    assert Decode(32 - shift, enc) == Some(n);
    ReadFromDecodes(bytes, at, enc, n, 0, shift, 1);
  }

  // ---------------------------------------------------------------- every byte array

  /** Where an encoding that starts at `at` ends: its first byte below 128. */
  predicate EndsAt(bytes: seq<Byte>, at: nat, last: nat) {
    && at <= last < |bytes|
    && bytes[last] < 128
    && forall i :: at <= i < last ==> bytes[i] >= 128
  }

  lemma WordStaysAWord(a: nat, b: nat)
    requires a < TWO_TO_32 && b < TWO_TO_32
    ensures BitOr(a, b) < TWO_TO_32
  {
    Powers();
    OrStaysWithin(a, b, 32);
  }

  lemma {:induction false} ReadFromEnds(bytes: seq<Byte>, cursor: nat, result: nat, shift: nat, last: nat)
    requires shift % 7 == 0 && shift <= 35 && result < TWO_TO_32
    requires EndsAt(bytes, cursor, last) && last - cursor <= (35 - shift) / 7
    ensures var r := ReadFrom(bytes, cursor, result, shift);
      r.Some? && r.value.0 < TWO_TO_32 && r.value.1 == last + 1
    decreases last - cursor
  {
    var more := Shl32(bytes[cursor] % 128, shift);
    WordStaysAWord(result, more);
    if cursor < last {
      ReadFromEnds(bytes, cursor + 1, BitOr(result, more), shift + 7, last);
    }
  }

  lemma {:induction false} ReadFromFinds(bytes: seq<Byte>, cursor: nat, result: nat, shift: nat) returns (last: nat)
    requires shift % 7 == 0 && ReadFrom(bytes, cursor, result, shift).Some?
    ensures EndsAt(bytes, cursor, last) && shift + 7 * (last - cursor) <= 35
    decreases |bytes| - cursor
  {
    if bytes[cursor] < 128 {
      last := cursor;
    } else {
      last := ReadFromFinds(bytes, cursor + 1, BitOr(result, Shl32(bytes[cursor] % 128, shift)), shift + 7);
    }
  }

  /** On every byte array the reader answers exactly when one of the six bytes from
      `at` ends an encoding, with a 32-bit value and the offset past that byte. */
  lemma ReadsWithinSixBytes(bytes: seq<Byte>, at: nat)
    ensures Read(bytes, at).Some? <==> exists last: nat :: EndsAt(bytes, at, last) && last - at <= 5
    ensures Read(bytes, at).Some? ==>
      var (n, next) := Read(bytes, at).value;
      && n < TWO_TO_32 && at < next <= |bytes| && next - at <= 6 && EndsAt(bytes, at, next - 1)
  {
    if Read(bytes, at).Some? {
      var last := ReadFromFinds(bytes, at, 0, 0);
      ReadFromEnds(bytes, at, 0, 0, last);
    } else if last: nat :| EndsAt(bytes, at, last) && last - at <= 5 {
      ReadFromEnds(bytes, at, 0, 0, last);
    }
  }

  /** Where the reader answers, it agrees with the standard exactly when the
      encoding has at most five bytes and, if five, a last byte below 16. */
  lemma AgreesWithTheStandard(bytes: seq<Byte>, at: nat)
    requires Read(bytes, at).Some?
    ensures var (n, next) := Read(bytes, at).value;
      && at < next <= |bytes|
      && (Decode(32, bytes[at..next]) == Some(n) <==>
          next - at <= 4 || (next - at == 5 && bytes[next - 1] < 16))
  {
    ReadsWithinSixBytes(bytes, at);
    var (n, next) := Read(bytes, at).value;
    var enc := bytes[at..next];
    assert forall i :: 0 <= i < |enc| - 1 ==> enc[i] == bytes[at + i] >= 128;
    assert enc[|enc| - 1] == bytes[next - 1];
    DecodesWhenShort(32, enc);
    if Decode(32, enc).Some? {
      InvertsTheStandard(bytes, at, enc, Decode(32, enc).value);
    }
  }

  lemma {:induction false} DecodesWhenShort(bits: nat, enc: seq<Byte>)
    requires enc != [] && enc[|enc| - 1] < 128
    requires forall i :: 0 <= i < |enc| - 1 ==> enc[i] >= 128
    requires bits == 32 || bits == 25 || bits == 18 || bits == 11 || bits == 4
    ensures Decode(bits, enc).Some? <==>
      7 * |enc| <= bits || (7 * (|enc| - 1) < bits && enc[|enc| - 1] < Pow2(bits - 7 * (|enc| - 1)))
    decreases |enc|
  {
    Powers();
    if |enc| > 1 && bits > 7 {
      DecodesWhenShort(bits - 7, enc[1..]);
    }
  }

  /** A sixth byte: its shift of 35 is taken as 3, so 2^35 reads as 8. */
  lemma SixthByteIsMisread()
    ensures Read([0x80, 0x80, 0x80, 0x80, 0x80, 0x01], 0) == Some((8, 6))
  {
    Powers();
    var bytes: seq<Byte> := [0x80, 0x80, 0x80, 0x80, 0x80, 0x01];
    assert forall s :: Shl32(0, s) == 0;
    assert BitOr(0, 0) == 0;
    assert Shl32(1, 35) == 8;
    OrWithZero(8);
    assert ReadFrom(bytes, 5, 0, 35) == Some((8, 6));
    assert ReadFrom(bytes, 3, 0, 21) == ReadFrom(bytes, 4, 0, 28) == ReadFrom(bytes, 5, 0, 35);
    assert ReadFrom(bytes, 1, 0, 7) == ReadFrom(bytes, 2, 0, 14) == ReadFrom(bytes, 3, 0, 21);
  }

  // ---------------------------------------------------------------- locality

  lemma {:induction false} ReadFromIsLocal(bytes: seq<Byte>, cursor: nat, other: seq<Byte>, at: nat, result: nat, shift: nat, k: nat)
    requires ReadFrom(bytes, cursor, result, shift).Some?
    requires cursor + k <= |bytes| && at + k <= |other|
    requires bytes[cursor..cursor + k] == other[at..at + k]
    requires ReadFrom(bytes, cursor, result, shift).value.1 == cursor + k
    ensures ReadFrom(other, at, result, shift)
         == Some((ReadFrom(bytes, cursor, result, shift).value.0, at + k))
    decreases k
  {
    NextIsPast(bytes, cursor, result, shift);
    assert bytes[cursor] == bytes[cursor..cursor + k][0] == other[at];
    if bytes[cursor] >= 128 {
      assert bytes[cursor + 1..cursor + k] == bytes[cursor..cursor + k][1..] == other[at + 1..at + k];
      ReadFromIsLocal(bytes, cursor + 1, other, at + 1, BitOr(result, Shl32(bytes[cursor] % 128, shift)), shift + 7, k - 1);
    }
  }

  lemma {:induction false} NextIsPast(bytes: seq<Byte>, cursor: nat, result: nat, shift: nat)
    requires ReadFrom(bytes, cursor, result, shift).Some?
    ensures cursor < ReadFrom(bytes, cursor, result, shift).value.1 <= |bytes|
    decreases |bytes| - cursor
  {
    if bytes[cursor] >= 128 {
      NextIsPast(bytes, cursor + 1, BitOr(result, Shl32(bytes[cursor] % 128, shift)), shift + 7);
    }
  }

  /** What is read depends on the bytes read and on nothing else. */
  lemma ReadIsLocal(bytes: seq<Byte>, at: nat, other: seq<Byte>, there: nat)
    requires Read(bytes, at).Some?
    requires var k := Read(bytes, at).value.1 - at;
      k >= 0 && at + k <= |bytes| && there + k <= |other| && bytes[at..at + k] == other[there..there + k]
    ensures Read(other, there) == Some((Read(bytes, at).value.0, there + (Read(bytes, at).value.1 - at)))
  {
    ReadFromIsLocal(bytes, at, other, there, 0, 0, Read(bytes, at).value.1 - at);
  }
}
