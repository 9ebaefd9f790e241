/**
 Session tokens: crates/fah-api/src/session.rs. A token is the lower-case hex of a payload
 (version, expiry in seconds, nonce) followed by the hex of its MAC under the session secret.

 Text is its UTF-8 bytes, as the code reads it. The MAC is a parameter.
 */
module Session {
  import opened Wrappers

  type byte = x: int | 0 <= x < 256

  // ---------- Hex ----------

  /** The lower-case hex digit for `n`: '0' is 48 and 'a' is 97. */
  function Digit(n: int): byte
    requires 0 <= n < 16
  {
    if n < 10 then 48 + n else 87 + n
  }

  function Nibble(b: byte): (r: Option<int>)
    ensures r.Some? ==> 0 <= r.value < 16
  {
    if 48 <= b <= 57 then Some(b - 48)
    else if 97 <= b <= 102 then Some(b - 87)
    else if 65 <= b <= 70 then Some(b - 55)
    else None
  }

  function LowerByte(b: byte): byte {
    if 65 <= b <= 90 then b + 32 else b
  }

  lemma DigitsAreNibbles(n: int, b: byte)
    requires 0 <= n < 16
    ensures Nibble(b) == Some(n) <==> LowerByte(b) == Digit(n)
    ensures Nibble(Digit(n)) == Some(n)
  {
  }

  function Lower(text: seq<byte>): (r: seq<byte>)
    ensures |r| == |text|
  {
    seq(|text|, i requires 0 <= i < |text| => LowerByte(text[i]))
  }

  function Pair(b: byte): (r: seq<byte>)
    ensures |r| == 2
  {
    [Digit(b / 16), Digit(b % 16)]
  }

  function Encode(bytes: seq<byte>): (r: seq<byte>)
    ensures |r| == 2 * |bytes|
  {
    seq(2 * |bytes|, i requires 0 <= i < 2 * |bytes| => Pair(bytes[i / 2])[i % 2])
  }

  /** The text is the hex of something, in either case. */
  predicate IsHex(text: seq<byte>) {
    |text| % 2 == 0 && forall i | 0 <= i < |text| :: Nibble(text[i]).Some?
  }

  function Join(high: int, low: int): (r: byte)
    requires 0 <= high < 16 && 0 <= low < 16
    ensures r / 16 == high && r % 16 == low
  {
    16 * high + low
  }

  function Decode(text: seq<byte>): (r: seq<byte>)
    requires IsHex(text)
    ensures |r| == |text| / 2
  {
    seq(|text| / 2, i requires 0 <= i < |text| / 2 => Join(Nibble(text[2 * i]).value, Nibble(text[2 * i + 1]).value))
  }

  lemma EncodeAt(bytes: seq<byte>, i: int)
    requires 0 <= i < |bytes|
    ensures Encode(bytes)[2 * i] == Digit(bytes[i] / 16) && Encode(bytes)[2 * i + 1] == Digit(bytes[i] % 16)
  {
  }

  lemma EncodeIsHex(bytes: seq<byte>)
    ensures IsHex(Encode(bytes))
  {
    hide Digit, Nibble;
    forall i | 0 <= i < 2 * |bytes|
      ensures Nibble(Encode(bytes)[i]).Some?
    {
      DigitsAreNibbles(bytes[i / 2] / 16, 0);
      DigitsAreNibbles(bytes[i / 2] % 16, 0);
    }
  }

  lemma DecodeInvertsEncode(bytes: seq<byte>)
    ensures IsHex(Encode(bytes)) && Decode(Encode(bytes)) == bytes
  {
    hide Digit, Nibble, Encode, IsHex;
    EncodeIsHex(bytes);
    forall i | 0 <= i < |bytes|
      ensures Decode(Encode(bytes))[i] == bytes[i]
    {
      EncodeAt(bytes, i);
      DigitsAreNibbles(bytes[i] / 16, 0);
      DigitsAreNibbles(bytes[i] % 16, 0);
    }
  }

  lemma EncodeInvertsDecode(text: seq<byte>)
    requires IsHex(text)
    ensures Encode(Decode(text)) == Lower(text)
  {
    hide Digit, Nibble, Encode, LowerByte;
    forall k | 0 <= k < |text| / 2
      ensures Encode(Decode(text))[2 * k] == Lower(text)[2 * k]
      ensures Encode(Decode(text))[2 * k + 1] == Lower(text)[2 * k + 1]
    {
      EncodeAt(Decode(text), k);
      DigitsAreNibbles(Nibble(text[2 * k]).value, text[2 * k]);
      DigitsAreNibbles(Nibble(text[2 * k + 1]).value, text[2 * k + 1]);
    }
    forall i | 0 <= i < |text|
      ensures Encode(Decode(text))[i] == Lower(text)[i]
    {
      assert i == 2 * (i / 2) || i == 2 * (i / 2) + 1;
    }
  }

  lemma EncodeConcat(a: seq<byte>, b: seq<byte>)
    ensures Encode(a + b) == Encode(a) + Encode(b)
  {
    hide Pair;
    forall i | 0 <= i < 2 * |a + b|
      ensures Encode(a + b)[i] == (Encode(a) + Encode(b))[i]
    {
      if i >= 2 * |a| {
        assert (i - 2 * |a|) % 2 == i % 2 && (i - 2 * |a|) / 2 == i / 2 - |a|;
      }
    }
  }

  /** Appends the hex of `bytes` to `out`. */
  method WriteHex(out: seq<byte>, bytes: seq<byte>) returns (r: seq<byte>)
    ensures r == out + Encode(bytes)
  {
    r := out;
    for i := 0 to |bytes|
      invariant r == out + Encode(bytes[..i])
    {
      assert bytes[..i + 1] == bytes[..i] + [bytes[i]];
      EncodeConcat(bytes[..i], [bytes[i]]);
      r := r + [Digit(bytes[i] / 16)];
      r := r + [Digit(bytes[i] % 16)];
    }
    assert bytes[..|bytes|] == bytes;
  }

  /** Fills `out` from hex text; true exactly when the text is hex of the buffer's length. */
  method DecodeHex(text: seq<byte>, out: array<byte>) returns (ok: bool)
    modifies out
    ensures ok <==> |text| == 2 * out.Length && IsHex(text)
    ensures ok ==> out[..] == Decode(text)
    ensures |text| != 2 * out.Length ==> out[..] == old(out[..])
  {
    if |text| != 2 * out.Length {
      return false;
    }
    for k := 0 to out.Length
      invariant forall i | 0 <= i < 2 * k :: Nibble(text[i]).Some?
      invariant forall i | 0 <= i < k :: out[i] == Join(Nibble(text[2 * i]).value, Nibble(text[2 * i + 1]).value)
    {
      var high, low := Nibble(text[2 * k]), Nibble(text[2 * k + 1]);
      if high.None? || low.None? {
        return false;
      }
      out[k] := Join(high.value, low.value);
    }
    return true;
  }

  // ---------- Tokens ----------

  const TOKEN_VERSION := 1
  const NONCE_BYTES := 16
  const PAYLOAD_BYTES := 1 + 8 + NONCE_BYTES
  const MAC_BYTES := 32
  const TOKEN_CHARS := (PAYLOAD_BYTES + MAC_BYTES) * 2
  const SECOND := 1_000_000_000

  /** The last second the system's clock can hold; adding more to the epoch panics. */
  const MAX_SECONDS := 0x7fff_ffff_ffff_ffff

  datatype Verdict = Rejected | Accepted | Overflow

  /** The `width` low bytes of `n`, most significant first. */
  function BigEndian(n: nat, width: nat): (r: seq<byte>)
    ensures |r| == width
  {
    if width == 0 then [] else BigEndian(n / 256, width - 1) + [n % 256]
  }

  function FromBigEndian(bytes: seq<byte>): nat {
    if bytes == [] then 0 else 256 * FromBigEndian(bytes[..|bytes| - 1]) + bytes[|bytes| - 1]
  }

  function Power(width: nat): (r: nat)
    ensures r > 0
  {
    if width == 0 then 1 else 256 * Power(width - 1)
  }

  lemma {:induction false} BigEndianRoundTrip(n: nat, width: nat)
    requires n < Power(width)
    ensures FromBigEndian(BigEndian(n, width)) == n
  {
    if width > 0 {
      BigEndianRoundTrip(n / 256, width - 1);
      var r := BigEndian(n, width);
      assert r[..|r| - 1] == BigEndian(n / 256, width - 1);
    }
  }

  lemma {:induction false} FromBigEndianRoundTrip(bytes: seq<byte>)
    ensures FromBigEndian(bytes) < Power(|bytes|)
    ensures BigEndian(FromBigEndian(bytes), |bytes|) == bytes
  {
    if bytes != [] {
      var front := bytes[..|bytes| - 1];
      FromBigEndianRoundTrip(front);
      assert FromBigEndian(bytes) / 256 == FromBigEndian(front);
      assert bytes == front + [bytes[|bytes| - 1]];
    }
  }

  /** A MAC under some secret: a tag of `MAC_BYTES` for every payload. */
  ghost predicate IsMac(mac: seq<byte> -> seq<byte>) {
    forall payload :: |mac(payload)| == MAC_BYTES
  }

  function Payload(version: byte, seconds: nat, nonce: seq<byte>): (r: seq<byte>)
    ensures |r| == 9 + |nonce|
  {
    [version] + BigEndian(seconds, 8) + nonce
  }

  /** Whole seconds since the epoch; times are in nanoseconds, and an earlier one counts as the epoch. */
  function ExpirySeconds(expiry: int): nat {
    if expiry < 0 then 0 else expiry / SECOND
  }

  function Mint(mac: seq<byte> -> seq<byte>, version: byte, seconds: nat, nonce: seq<byte>): seq<byte> {
    var payload := Payload(version, seconds, nonce);
    Encode(payload) + Encode(mac(payload))
  }

  method MintRaw(mac: seq<byte> -> seq<byte>, version: byte, expiry: int, nonce: seq<byte>) returns (token: seq<byte>)
    requires IsMac(mac) && |nonce| == NONCE_BYTES
    ensures token == Mint(mac, version, ExpirySeconds(expiry), nonce) && |token| == TOKEN_CHARS
    ensures version == TOKEN_VERSION && 0 <= expiry <= MAX_SECONDS * SECOND ==>
              && (forall now | now >= expiry :: !Valid(mac, token, now))
              && (forall now | now + SECOND <= expiry :: Valid(mac, token, now))
    ensures version == TOKEN_VERSION && expiry < 0 ==> forall now | now >= 0 :: !Valid(mac, token, now)
    ensures version != TOKEN_VERSION && expiry <= MAX_SECONDS * SECOND ==> forall now :: !Valid(mac, token, now)
  {
    hide Encode, BigEndian, Valid, Mint;
    var payload := [version] + BigEndian(ExpirySeconds(expiry), 8) + nonce;
    token := WriteHex([], payload);
    token := WriteHex(token, mac(payload));
    MintSpells(mac, version, ExpirySeconds(expiry), nonce);
    if expiry <= MAX_SECONDS * SECOND {
      forall now
        ensures Valid(mac, token, now) <==> version == TOKEN_VERSION && now < SECOND * ExpirySeconds(expiry)
      {
        MintedTokenIsValidIff(mac, version, ExpirySeconds(expiry), nonce, now);
      }
    }
  }

  lemma MintSpells(mac: seq<byte> -> seq<byte>, version: byte, seconds: nat, nonce: seq<byte>)
    requires IsMac(mac)
    ensures var payload := [version] + BigEndian(seconds, 8) + nonce;
            Mint(mac, version, seconds, nonce) == [] + Encode(payload) + Encode(mac(payload))
            && |Mint(mac, version, seconds, nonce)| == 2 * (9 + |nonce| + MAC_BYTES)
  {
    hide BigEndian;
  }

  /** The decoded bytes carry the current version and the MAC of their payload. */
  predicate Signed(mac: seq<byte> -> seq<byte>, raw: seq<byte>)
    requires |raw| == PAYLOAD_BYTES + MAC_BYTES
  {
    raw[0] == TOKEN_VERSION && mac(raw[..PAYLOAD_BYTES]) == raw[PAYLOAD_BYTES..]
  }

  /** Hex text of the right length that decodes to signed bytes. */
  predicate WellFormed(mac: seq<byte> -> seq<byte>, token: seq<byte>) {
    |token| == TOKEN_CHARS && IsHex(token) && Signed(mac, Decode(token))
  }

  function Expiry(mac: seq<byte> -> seq<byte>, token: seq<byte>): nat
    requires WellFormed(mac, token)
  {
    FromBigEndian(Decode(token)[1..9])
  }

  /** The tokens let in at `now`. */
  predicate Valid(mac: seq<byte> -> seq<byte>, token: seq<byte>, now: int) {
    WellFormed(mac, token) && Expiry(mac, token) <= MAX_SECONDS && now < SECOND * Expiry(mac, token)
  }

  predicate Overflows(mac: seq<byte> -> seq<byte>, token: seq<byte>) {
    WellFormed(mac, token) && Expiry(mac, token) > MAX_SECONDS
  }

  method Verify(mac: seq<byte> -> seq<byte>, token: seq<byte>, now: int) returns (verdict: Verdict)
    ensures verdict == Accepted <==> Valid(mac, token, now)
    ensures verdict == Overflow <==> Overflows(mac, token)
  {
    if |token| != TOKEN_CHARS {
      return Rejected;
    }
    var raw := new byte[PAYLOAD_BYTES + MAC_BYTES];
    var hex := DecodeHex(token, raw);
    if !hex {
      return Rejected;
    }
    var payload, tag := raw[..PAYLOAD_BYTES], raw[PAYLOAD_BYTES..];
    assert raw[..] == Decode(token);
    if payload[0] != TOKEN_VERSION {
      return Rejected;
    }
    if mac(payload) != tag {
      return Rejected;
    }
    assert payload[1..9] == raw[..][1..9];
    var seconds := FromBigEndian(payload[1..9]);
    if seconds > MAX_SECONDS {
      return Overflow;
    }
    return if now < SECOND * seconds then Accepted else Rejected;
  }

  /** What a minted token decodes to. */
  lemma MintedIsWellFormedIff(mac: seq<byte> -> seq<byte>, version: byte, seconds: nat, nonce: seq<byte>)
    requires IsMac(mac) && |nonce| == NONCE_BYTES && seconds < Power(8)
    ensures WellFormed(mac, Mint(mac, version, seconds, nonce)) <==> version == TOKEN_VERSION
    ensures version == TOKEN_VERSION ==> Expiry(mac, Mint(mac, version, seconds, nonce)) == seconds
  {
    hide Encode, Decode, IsHex, BigEndian, FromBigEndian, Power;
    var payload := Payload(version, seconds, nonce);
    var raw := payload + mac(payload);
    EncodeConcat(payload, mac(payload));
    DecodeInvertsEncode(raw);
    assert raw[..PAYLOAD_BYTES] == payload;
    assert raw[PAYLOAD_BYTES..] == mac(payload);
    assert raw[1..9] == BigEndian(seconds, 8);
    BigEndianRoundTrip(seconds, 8);
  }

  /**
   A token minted for a time that the system's clock can hold verifies until that time and never
   after; one of another version never does; and neither makes `verify` overflow.
   */
  lemma MintedTokenIsValidIff(mac: seq<byte> -> seq<byte>, version: byte, seconds: nat, nonce: seq<byte>, now: int)
    requires IsMac(mac) && |nonce| == NONCE_BYTES && seconds <= MAX_SECONDS
    ensures Valid(mac, Mint(mac, version, seconds, nonce), now) <==> version == TOKEN_VERSION && now < SECOND * seconds
    ensures !Overflows(mac, Mint(mac, version, seconds, nonce))
  {
    assert seconds < Power(8) by { EightBytes(); }
    hide WellFormed, Power, Expiry;
    MintedIsWellFormedIff(mac, version, seconds, nonce);
  }

  lemma EightBytes()
    ensures Power(8) == 0x1_0000_0000_0000_0000
  {
    assert Power(4) == 0x1_0000_0000;
  }

  /** Nothing else verifies or overflows: a signed token is a minted one, up to the case of its digits. */
  lemma WellFormedIsMinted(mac: seq<byte> -> seq<byte>, token: seq<byte>) returns (seconds: nat, nonce: seq<byte>)
    requires WellFormed(mac, token)
    ensures |nonce| == NONCE_BYTES && seconds < Power(8) && seconds == Expiry(mac, token)
    ensures Lower(token) == Mint(mac, TOKEN_VERSION, seconds, nonce)
  {
    hide Encode, BigEndian, FromBigEndian, Power;
    var raw := Decode(token);
    seconds, nonce := FromBigEndian(raw[1..9]), raw[9..PAYLOAD_BYTES];
    FromBigEndianRoundTrip(raw[1..9]);
    EncodeInvertsDecode(token);
    var payload := Payload(TOKEN_VERSION, seconds, nonce);
    assert raw[..PAYLOAD_BYTES] == payload;
    assert raw == payload + mac(payload);
    EncodeConcat(payload, mac(payload));
  }

  /** Two tokens under one secret are equal only when they carry the same expiry and nonce. */
  lemma MintIsInjective(mac: seq<byte> -> seq<byte>, s1: nat, n1: seq<byte>, s2: nat, n2: seq<byte>)
    requires |n1| == |n2| == NONCE_BYTES && s1 < Power(8) && s2 < Power(8)
    requires Mint(mac, TOKEN_VERSION, s1, n1) == Mint(mac, TOKEN_VERSION, s2, n2)
    ensures s1 == s2 && n1 == n2
  {
    var p1, p2 := Payload(TOKEN_VERSION, s1, n1), Payload(TOKEN_VERSION, s2, n2);
    assert Mint(mac, TOKEN_VERSION, s1, n1)[..2 * PAYLOAD_BYTES] == Encode(p1);
    assert Mint(mac, TOKEN_VERSION, s2, n2)[..2 * PAYLOAD_BYTES] == Encode(p2);
    DecodeInvertsEncode(p1);
    DecodeInvertsEncode(p2);
    assert p1[1..9] == BigEndian(s1, 8) && p1[9..] == n1;
    assert p2[1..9] == BigEndian(s2, 8) && p2[9..] == n2;
    BigEndianRoundTrip(s1, 8);
    BigEndianRoundTrip(s2, 8);
  }
}
