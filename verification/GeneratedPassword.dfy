/**
 The password generated when none is stored: crates/fah-api/src/password.rs, `generate_password`.
 Random bytes are written as base-32 letters through a 16-bit accumulator.
 */
module GeneratedPassword {
  import opened Session

  const WORD := 65536

  /** The letter for a base-32 digit: 'a' is 97 and '2' is 50. */
  function Letter(index: int): byte
    requires 0 <= index < 32
  {
    if index < 26 then 97 + index else 24 + index
  }

  predicate IsLetter(b: byte) {
    97 <= b <= 122 || 50 <= b <= 55
  }

  function Index(b: byte): (r: int)
    ensures IsLetter(b) ==> 0 <= r < 32
  {
    if b >= 97 then b - 97 else b - 24
  }

  /** The number the letters spell in base 32, most significant first. */
  function Value(text: seq<byte>): int {
    if text == [] then 0 else 32 * Value(text[..|text| - 1]) + Index(text[|text| - 1])
  }

  function Bits(n: nat): (r: nat)
    ensures r > 0
  {
    if n == 0 then 1 else 2 * Bits(n - 1)
  }

  /** The bits that pad `count` bytes to whole letters. */
  function Padding(count: nat): nat {
    (4 * 8 * count) % 5
  }

  /** `text` spells exactly the bits of `bytes`, followed by zero bits up to a whole letter. */
  predicate Spells(text: seq<byte>, bytes: seq<byte>) {
    && 5 * |text| == 8 * |bytes| + Padding(|bytes|)
    && (forall i | 0 <= i < |text| :: IsLetter(text[i]))
    && Value(text) == FromBigEndian(bytes) * Bits(Padding(|bytes|))
  }

  lemma ValueAppend(text: seq<byte>, index: int)
    requires 0 <= index < 32
    ensures Value(text + [Letter(index)]) == 32 * Value(text) + index
  {
    var longer := text + [Letter(index)];
    assert longer[..|longer| - 1] == text;
  }

  lemma {:induction false} BitsAdd(m: nat, n: nat)
    ensures Bits(m + n) == Bits(m) * Bits(n)
  {
    if m > 0 {
      BitsAdd(m - 1, n);
    }
  }

  lemma BitsTable()
    ensures Bits(0) == 1 && Bits(5) == 32 && Bits(8) == 256 && Bits(11) == 2048 && Bits(16) == WORD
  {
    BitsAdd(8, 8);
  }

  lemma Grows(a: int, b: int, scale: int)
    requires scale >= 0
    ensures a <= b ==> a * scale <= b * scale
  {
    if a <= b {
      assert (b - a) * scale >= 0;
    }
  }

  lemma SmallMultiple(k: int, d: int)
    requires -d < k * d < d
    ensures k == 0
  {
    Grows(1, k, d);
    Grows(1, -k, d);
  }

  lemma DivMod(x: int, d: int, q: int, r: int)
    requires 0 <= r < d && x == q * d + r
    ensures x / d == q && x % d == r
  {
    var quotient, rest := x / d, x % d;
    assert x == quotient * d + rest && 0 <= rest < d;
    assert (quotient - q) * d == quotient * d - q * d;
    SmallMultiple(quotient - q, d);
  }

  /** Shifting a byte in keeps the pending bits above it, though the word drops its high ones. */
  lemma ShiftIn(accumulator: nat, bits: nat, b: byte)
    requires bits <= 4
    ensures (accumulator * 256 + b) % WORD % Bits(bits + 8) == accumulator % Bits(bits) * 256 + b
  {
    BitsTable();
    BitsAdd(bits, 8);
    BitsAdd(bits + 8, 8 - bits);
    hide Bits;
    var low, high, scale := accumulator % Bits(bits), accumulator / Bits(bits), Bits(bits + 8);
    assert accumulator * 256 + b == high * scale + (low * 256 + b) by {
      ShiftParts(high, low, Bits(bits));
    }
    DropHigh(accumulator * 256 + b, high, low * 256 + b, scale, Bits(8 - bits));
  }

  lemma ShiftParts(high: int, low: int, scale: int)
    ensures (high * scale + low) * 256 == high * (scale * 256) + low * 256
  {
  }

  /** Cutting off at a multiple of `scale` leaves what lies below `scale`. */
  lemma DropHigh(word: nat, high: nat, low: nat, scale: nat, spare: nat)
    requires low < scale && word == high * scale + low && scale * spare == WORD
    ensures word % WORD % scale == low
  {
    var lost := word / WORD;
    assert word % WORD == word - WORD * lost;
    assert (high - spare * lost) * scale == high * scale - WORD * lost by {
      Spread(high, spare, lost, scale);
    }
    DivMod(word % WORD, scale, high - spare * lost, low);
  }

  lemma Spread(high: int, spare: int, lost: int, scale: int)
    ensures (high - spare * lost) * scale == high * scale - scale * spare * lost
  {
  }

  lemma Regroup(quotient: int, index: int, scale: int)
    ensures (32 * quotient + index) * scale == quotient * (32 * scale) + index * scale
  {
  }

  lemma BelowTop(index: nat, low: nat, scale: nat)
    requires low < scale && index < 32
    ensures 0 <= index * scale && index * scale + low < 32 * scale
  {
    assert (31 - index) * scale >= 0;
  }

  lemma SplitDigit(x: nat, scale: nat, quotient: nat, index: nat, low: nat)
    requires low < scale && index < 32 && x == (32 * quotient + index) * scale + low
    ensures x % (32 * scale) == index * scale + low
  {
    Regroup(quotient, index, scale);
    BelowTop(index, low, scale);
    DivMod(x, 32 * scale, quotient, index * scale + low);
  }

  lemma Digits(x: nat, scale: nat)
    requires scale > 0
    ensures x % (32 * scale) == x / scale % 32 * scale + x % scale
  {
    var high := x / scale;
    assert x == high * scale + x % scale;
    assert high == 32 * (high / 32) + high % 32;
    SplitDigit(x, scale, high / 32, high % 32, x % scale);
  }

  /** The top five pending bits, and what is left below them. */
  lemma TakeOut(accumulator: nat, bits: nat)
    ensures accumulator % Bits(bits + 5) == accumulator / Bits(bits) % 32 * Bits(bits) + accumulator % Bits(bits)
  {
    BitsTable();
    BitsAdd(bits, 5);
    hide Bits;
    Digits(accumulator, Bits(bits));
  }

  /** The last letter: the bits left over, moved up against a zero padding. */
  lemma PadOut(accumulator: nat, bits: nat)
    requires 1 <= bits <= 4
    ensures accumulator * Bits(5 - bits) % WORD % 32 == accumulator % Bits(bits) * Bits(5 - bits)
    ensures Bits(bits) * Bits(5 - bits) == 32
  {
    BitsTable();
    BitsAdd(bits, 5 - bits);
    hide Bits;
    var scale := Bits(bits);
    PadParts(accumulator, accumulator / scale, accumulator % scale, scale, Bits(5 - bits));
  }

  lemma PadParts(accumulator: nat, high: nat, low: nat, scale: nat, up: nat)
    requires low < scale && accumulator == high * scale + low && scale * up == 32 && up > 0
    ensures accumulator * up % WORD % 32 == low * up
  {
    ShiftUp(high, low, scale, up);
    LowBits(accumulator * up, high, low * up);
  }

  lemma LowBits(word: int, high: int, low: int)
    requires word == 32 * high + low && 0 <= low < 32
    ensures word % WORD % 32 == low
  {
    var lost := word / WORD;
    assert word % WORD == 32 * (high - 2048 * lost) + low;
  }

  lemma ShiftUp(high: int, low: int, scale: int, up: int)
    requires 0 <= low < scale && scale * up == 32 && up > 0
    ensures (high * scale + low) * up == 32 * high + low * up
    ensures 0 <= low * up < 32
  {
    assert high * scale * up == high * (scale * up);
    Grows(low + 1, scale, up);
  }

  /** The letters so far and the `bits` pending bits spell `value`. */
  predicate Pending(text: seq<byte>, accumulator: nat, bits: nat, value: int) {
    Value(text) * Bits(bits) + accumulator % Bits(bits) == value
  }

  /** Writes whole letters while five bits are pending. */
  method Drain(text: seq<byte>, accumulator: nat, pending: nat, ghost value: int) returns (out: seq<byte>, bits: nat)
    requires Pending(text, accumulator, pending, value)
    requires forall i | 0 <= i < |text| :: IsLetter(text[i])
    ensures bits <= 4 && 5 * |out| + bits == 5 * |text| + pending
    ensures forall i | 0 <= i < |out| :: IsLetter(out[i])
    ensures Pending(out, accumulator, bits, value)
  {
    hide Bits, Value, Pending;
    out, bits := text, pending;
    while bits >= 5
      invariant 5 * |out| + bits == 5 * |text| + pending
      invariant forall i | 0 <= i < |out| :: IsLetter(out[i])
      invariant Pending(out, accumulator, bits, value)
    {
      bits := bits - 5;
      var index := accumulator / Bits(bits) % 32;
      LetterOut(out, accumulator, bits, value);
      out := out + [Letter(index)];
    }
  }

  lemma LetterOut(text: seq<byte>, accumulator: nat, bits: nat, value: int)
    requires Pending(text, accumulator, bits + 5, value)
    ensures Pending(text + [Letter(accumulator / Bits(bits) % 32)], accumulator, bits, value)
  {
    BitsTable();
    BitsAdd(bits, 5);
    hide Bits, Value;
    var index := accumulator / Bits(bits) % 32;
    TakeOut(accumulator, bits);
    ValueAppend(text, index);
    Carry(Value(text), Value(text + [Letter(index)]), Bits(bits), Bits(bits + 5), index, accumulator % Bits(bits));
  }

  lemma Carry(value: int, longer: int, scale: int, wider: int, index: int, low: int)
    requires wider == scale * 32 && longer == 32 * value + index
    ensures value * wider + (index * scale + low) == longer * scale + low
  {
    Regroup(value, index, scale);
  }

  lemma ReadOneMore(bytes: seq<byte>, i: nat)
    requires i < |bytes|
    ensures FromBigEndian(bytes[..i + 1]) == 256 * FromBigEndian(bytes[..i]) + bytes[i]
  {
    var longer := bytes[..i + 1];
    assert longer[..|longer| - 1] == bytes[..i];
  }

  lemma ByteIn(text: seq<byte>, accumulator: nat, bits: nat, b: byte, value: int)
    requires bits <= 4 && Pending(text, accumulator, bits, value)
    ensures Pending(text, (accumulator * 256 + b) % WORD, bits + 8, 256 * value + b)
  {
    ShiftIn(accumulator, bits, b);
    BitsTable();
    BitsAdd(8, bits);
    hide Bits, Value;
    assert Value(text) * (256 * Bits(bits)) == 256 * (Value(text) * Bits(bits));
  }

  /** What is left in the word, shifted up to five bits. */
  function LastIndex(accumulator: nat, bits: nat): (r: int)
    requires bits <= 5
    ensures 0 <= r < 32
  {
    accumulator * Bits(5 - bits) % WORD % 32
  }

  lemma LastLetter(text: seq<byte>, accumulator: nat, bits: nat, value: int)
    requires 1 <= bits <= 4 && Pending(text, accumulator, bits, value)
    ensures Value(text + [Letter(LastIndex(accumulator, bits))]) == value * Bits(5 - bits)
  {
    hide Value;
    PadOut(accumulator, bits);
    hide Bits;
    ValueAppend(text, LastIndex(accumulator, bits));
    Padded(Value(text), accumulator % Bits(bits), Bits(bits), Bits(5 - bits));
  }

  lemma PaddingIs(count: nat, letters: nat, bits: nat)
    requires bits <= 4 && 5 * letters + bits == 8 * count
    ensures Padding(count) == if bits == 0 then 0 else 5 - bits
  {
    assert 4 * 8 * count == 5 * (4 * letters + bits) - bits;
  }

  /** The loop over the random bytes. */
  method WriteLetters(bytes: seq<byte>) returns (out: seq<byte>, accumulator: nat, bits: nat)
    ensures bits <= 4 && 5 * |out| + bits == 8 * |bytes|
    ensures forall k | 0 <= k < |out| :: IsLetter(out[k])
    ensures Pending(out, accumulator, bits, FromBigEndian(bytes))
  {
    hide Bits, Value, FromBigEndian, Pending;
    out, accumulator, bits := [], 0, 0;
    NothingRead(bytes);
    for i := 0 to |bytes|
      invariant bits <= 4 && 5 * |out| + bits == 8 * i
      invariant forall k | 0 <= k < |out| :: IsLetter(out[k])
      invariant Pending(out, accumulator, bits, FromBigEndian(bytes[..i]))
    {
      ByteIn(out, accumulator, bits, bytes[i], FromBigEndian(bytes[..i]));
      ReadOneMore(bytes, i);
      accumulator := (accumulator * 256 + bytes[i]) % WORD;
      out, bits := Drain(out, accumulator, bits + 8, FromBigEndian(bytes[..i + 1]));
    }
    assert bytes[..|bytes|] == bytes;
  }

  method GeneratePassword(bytes: seq<byte>) returns (out: seq<byte>)
    ensures Spells(out, bytes)
  {
    hide Bits, Value, FromBigEndian, Padding, Pending, LastIndex;
    var accumulator: nat, bits: nat;
    out, accumulator, bits := WriteLetters(bytes);
    PaddingIs(|bytes|, |out|, bits);
    if bits > 0 {
      LastLetter(out, accumulator, bits, FromBigEndian(bytes));
      out := out + [Letter(LastIndex(accumulator, bits))];
    } else {
      NothingPending(out, accumulator, FromBigEndian(bytes));
    }
  }

  lemma NothingRead(bytes: seq<byte>)
    ensures Pending([], 0, 0, FromBigEndian(bytes[..0]))
  {
  }

  lemma NothingPending(text: seq<byte>, accumulator: nat, value: int)
    requires Pending(text, accumulator, 0, value)
    ensures Value(text) == value * Bits(0)
  {
  }

  lemma Padded(value: int, rest: int, scale: int, padding: int)
    requires scale * padding == 32
    ensures (value * scale + rest) * padding == 32 * value + rest * padding
  {
    assert value * scale * padding == value * (scale * padding);
  }

  lemma Cancels(a: int, b: int, scale: int)
    requires scale > 0 && a * scale == b * scale
    ensures a == b
  {
    assert (a - b) * scale == 0;
    SmallMultiple(a - b, scale);
  }

  /** A password keeps every random bit: two draws that spell the same password are the same draw. */
  lemma PasswordKeepsEveryBit(text: seq<byte>, a: seq<byte>, b: seq<byte>)
    requires |a| == |b| && Spells(text, a) && Spells(text, b)
    ensures a == b
  {
    hide Bits, Value, Padding, FromBigEndian, BigEndian, Power;
    Cancels(FromBigEndian(a), FromBigEndian(b), Bits(Padding(|a|)));
    FromBigEndianRoundTrip(a);
    FromBigEndianRoundTrip(b);
  }
}
