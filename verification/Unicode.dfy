/**
 Unicode text and its encoding forms: UTF-8 (RFC 3629) and UTF-16 (RFC 2781), as the conversions
 `as_bytes`, `from_utf8`, `encode_utf16` and `from_utf16` perform them.

 Encoding follows the bit tables (section 3 of RFC 3629, section 2.1 of RFC 2781); decoding follows the
 syntax of byte sequences (section 4 of RFC 3629) and the decoding steps (section 2.2 of RFC 2781).
 */
module Unicode {
  import opened LittleEndian
  import opened Wrappers

  type Scalar = c: nat | c < 0x11_0000 && !(0xD800 <= c < 0xE000)
  type Text = seq<Scalar>
  type Unit = u: nat | u < 0x1_0000

  // ---------------------------------------------------------------------------------------------
  // UTF-8
  // ---------------------------------------------------------------------------------------------

  function Lead(base: nat, bits: nat): Byte
    requires base + bits < 256
  {
    base + bits
  }

  /** A continuation byte carries the six low bits. */
  function Continuation(bits: nat): Byte {
    0x80 + bits % 64
  }

  function Utf8Char(c: Scalar): (b: seq<Byte>)
    ensures 1 <= |b| <= 4
  {
    if c < 0x80 then [c]
    else if c < 0x800 then [Lead(0xC0, c / 64), Continuation(c)]
    else if c < 0x1_0000 then [Lead(0xE0, c / 64 / 64), Continuation(c / 64), Continuation(c)]
    else [Lead(0xF0, c / 64 / 64 / 64), Continuation(c / 64 / 64), Continuation(c / 64), Continuation(c)]
  }

  function EncodeUtf8(t: Text): seq<Byte> {
    if t == [] then [] else Utf8Char(t[0]) + EncodeUtf8(t[1..])
  }

  predicate Tail(b: Byte) {
    0x80 <= b < 0xC0
  }

  /** The length of the well-formed character at the front, 0 if there is none. */
  function Utf8Length(b: seq<Byte>): (n: nat)
    ensures n <= 4 && n <= |b|
  {
    if |b| >= 1 && b[0] < 0x80 then 1
    else if |b| >= 2 && 0xC2 <= b[0] < 0xE0 && Tail(b[1]) then 2
    else if |b| >= 3 && 0xE0 <= b[0] < 0xF0 && Tail(b[1]) && Tail(b[2])
      && (b[0] == 0xE0 ==> b[1] >= 0xA0) && (b[0] == 0xED ==> b[1] < 0xA0) then 3
    else if |b| >= 4 && 0xF0 <= b[0] < 0xF5 && Tail(b[1]) && Tail(b[2]) && Tail(b[3])
      && (b[0] == 0xF0 ==> b[1] >= 0x90) && (b[0] == 0xF4 ==> b[1] < 0x90) then 4
    else 0
  }

  function Minus(b: Byte, base: nat): int {
    b as int - base
  }

  /** Six more bits from a continuation byte. */
  function Shift(high: int, b: Byte): int {
    high * 64 + Minus(b, 0x80)
  }

  function Utf8Value(b: seq<Byte>): Scalar
    requires Utf8Length(b) > 0
  {
    if Utf8Length(b) == 1 then b[0]
    else if Utf8Length(b) == 2 then Shift(Minus(b[0], 0xC0), b[1])
    else if Utf8Length(b) == 3 then Shift(Shift(Minus(b[0], 0xE0), b[1]), b[2])
    else Shift(Shift(Shift(Minus(b[0], 0xF0), b[1]), b[2]), b[3])
  }

  function DecodeUtf8(b: seq<Byte>): Option<Text> {
    if b == [] then Some([])
    else if Utf8Length(b) == 0 then None
    else
      var rest := DecodeUtf8(b[Utf8Length(b)..]);
      if rest.None? then None else Some([Utf8Value(b)] + rest.value)
  }

  // ---------------------------------------------------------------------------------------------
  // UTF-16
  // ---------------------------------------------------------------------------------------------

  function Utf16Char(c: Scalar): (u: seq<Unit>)
    ensures 1 <= |u| <= 2
  {
    if c < 0x1_0000 then [c]
    else [0xD800 + (c - 0x1_0000) / 1024, 0xDC00 + (c - 0x1_0000) % 1024]
  }

  function EncodeUtf16(t: Text): seq<Unit> {
    if t == [] then [] else Utf16Char(t[0]) + EncodeUtf16(t[1..])
  }

  /** The character of a surrogate pair. */
  function Pair(high: nat, low: nat): Scalar
    requires 0xD800 <= high < 0xDC00 <= low < 0xE000
  {
    0x1_0000 + (high - 0xD800) * 1024 + (low - 0xDC00)
  }

  function DecodeUtf16(u: seq<Unit>): Option<Text> {
    if u == [] then Some([])
    else if u[0] < 0xD800 || u[0] >= 0xE000 then
      var rest := DecodeUtf16(u[1..]);
      if rest.None? then None else Some([u[0]] + rest.value)
    else if u[0] < 0xDC00 && |u| >= 2 && 0xDC00 <= u[1] < 0xE000 then
      var rest := DecodeUtf16(u[2..]);
      if rest.None? then None else Some([Pair(u[0], u[1])] + rest.value)
    else None
  }

  /** Units as pairs of bytes. */
  function UnitBytes(u: Unit, little: bool): (b: seq<Byte>)
    ensures |b| == 2
  {
    if little then [u % 256, u / 256] else [u / 256, u % 256]
  }

  function UnitsToBytes(u: seq<Unit>, little: bool): (b: seq<Byte>)
    ensures |b| == 2 * |u|
  {
    if u == [] then [] else UnitBytes(u[0], little) + UnitsToBytes(u[1..], little)
  }

  function Word(low: nat, high: nat): Unit
    requires low < 256 && high < 256
  {
    low + 256 * high
  }

  function FirstUnit(b: seq<Byte>, little: bool): Unit
    requires |b| >= 2
  {
    if little then Word(b[0], b[1]) else Word(b[1], b[0])
  }

  function BytesToUnits(b: seq<Byte>, little: bool): (u: seq<Unit>)
    requires |b| % 2 == 0
    ensures 2 * |u| == |b|
  {
    if b == [] then [] else [FirstUnit(b, little)] + BytesToUnits(b[2..], little)
  }
}
