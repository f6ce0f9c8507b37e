/**
 The text codec service (core/src/codec/mod.rs:16-209, 252-262).

 The conversions of Windows code pages are abstract; UTF-8 and UTF-16 are those of `Unicode`.
 */
module Codec {
  import opened LittleEndian
  import opened Unicode
  import opened UnicodeTheorems
  import opened Wrappers

  type Bytes = seq<Byte>
  type U32 = n: nat | n < 0x1_0000_0000

  datatype TextEncoding = Utf8 | Utf16Le | Utf16Be | CodePage(page: U32)

  datatype EncodingError =
    | InvalidCodePage(page: U32)
    | InvalidBytes
    | UnsupportedEncoding(encoding: TextEncoding)
    | LossyConversion

  datatype AutoDetectionError = Unknown | Ambiguous(pages: seq<U32>) | InvalidBom

  /** What the platform does with a code page it is asked for. */
  datatype Platform = Platform(
    encodePage: (Text, U32) -> Result<Bytes, EncodingError>,
    decodePage: (Bytes, U32) -> Result<Text, EncodingError>)

  predicate ValidCodePage(page: U32) {
    0 < page <= 65_535
  }

  function EncodeCodePage(p: Platform, t: Text, page: U32): Result<Bytes, EncodingError> {
    if ValidCodePage(page) then p.encodePage(t, page) else Err(InvalidCodePage(page))
  }

  function DecodeCodePage(p: Platform, b: Bytes, page: U32): Result<Text, EncodingError> {
    if ValidCodePage(page) then p.decodePage(b, page) else Err(InvalidCodePage(page))
  }

  function Decode16(b: Bytes, little: bool): Option<Text> {
    if |b| % 2 != 0 then None else DecodeUtf16(BytesToUnits(b, little))
  }

  function Encode16(t: Text, little: bool): Bytes {
    UnitsToBytes(EncodeUtf16(t), little)
  }

  function OrInvalid(t: Option<Text>): Result<Text, EncodingError> {
    if t.Some? then Ok(t.value) else Err(InvalidBytes)
  }

  function Encode(p: Platform, t: Text, e: TextEncoding): Result<Bytes, EncodingError> {
    match e
    case Utf8 => Ok(EncodeUtf8(t))
    case Utf16Le => Ok(Encode16(t, true))
    case Utf16Be => Ok(Encode16(t, false))
    case CodePage(page) => EncodeCodePage(p, t, page)
  }

  function Decode(p: Platform, b: Bytes, e: TextEncoding): Result<Text, EncodingError> {
    match e
    case Utf8 => OrInvalid(DecodeUtf8(b))
    case Utf16Le => OrInvalid(Decode16(b, true))
    case Utf16Be => OrInvalid(Decode16(b, false))
    case CodePage(page) => DecodeCodePage(p, b, page)
  }

  /** Every text survives encoding and decoding in each Unicode encoding. */
  lemma CodecRoundTrip(p: Platform, t: Text, e: TextEncoding)
    requires !e.CodePage?
    ensures Encode(p, t, e).Ok? && Decode(p, Encode(p, t, e).value, e) == Ok(t)
  {
    Utf8RoundTrip(t);
    RoundTrip16(t, true);
    RoundTrip16(t, false);
  }

  /**
   Each encoding by its own rule: UTF-8 never fails; the two UTF-16 orders differ in which byte of a unit comes first; a
   code page is asked for only if its number is one.
   */
  lemma EncodedByName(p: Platform, t: Text, page: U32, k: nat)
    requires k < |EncodeUtf16(t)|
    ensures Encode(p, t, Utf8) == Ok(EncodeUtf8(t))
    ensures var r := Encode(p, t, Utf16Le);
            && r.Ok? && |r.value| == 2 * |EncodeUtf16(t)|
            && r.value[2 * k] as nat + 256 * r.value[2 * k + 1] as nat == EncodeUtf16(t)[k]
    ensures var r := Encode(p, t, Utf16Be);
            && r.Ok? && |r.value| == 2 * |EncodeUtf16(t)|
            && 256 * r.value[2 * k] as nat + r.value[2 * k + 1] as nat == EncodeUtf16(t)[k]
    ensures Encode(p, t, CodePage(page))
         == if page == 0 || page > 65_535 then Err(InvalidCodePage(page)) else p.encodePage(t, page)
  {
    UnitsAt(EncodeUtf16(t), k);
  }

  lemma RoundTrip16(t: Text, little: bool)
    ensures Decode16(Encode16(t, little), little) == Some(t)
  {
    var u := EncodeUtf16(t);
    var b := UnitsToBytes(u, little);
    assert |b| % 2 == 0;
    assert BytesToUnits(b, little) == u by { UnitsRoundTrip(u, little); }
    assert DecodeUtf16(u) == Some(t) by { Utf16RoundTrip(t); }
  }

  /** Decoding accepts nothing but what encoding produces. */
  lemma CodecCanonical(p: Platform, b: Bytes, e: TextEncoding)
    requires !e.CodePage? && Decode(p, b, e).Ok?
    ensures Encode(p, Decode(p, b, e).value, e) == Ok(b)
  {
    match e
    case Utf8 => Utf8Canonical(b);
    case Utf16Le => Canonical16(b, true);
    case Utf16Be => Canonical16(b, false);
  }

  lemma Canonical16(b: Bytes, little: bool)
    requires Decode16(b, little).Some?
    ensures Encode16(Decode16(b, little).value, little) == b
  {
    Utf16Canonical(BytesToUnits(b, little));
    UnitsCanonical(b, little);
  }

  // ---------------------------------------------------------------------------------------------
  // Detection
  // ---------------------------------------------------------------------------------------------

  function Order(little: bool): TextEncoding {
    if little then Utf16Le else Utf16Be
  }

  /** The byte-order mark U+FEFF. */
  function Bom(little: bool): Bytes {
    if little then [0xFF, 0xFE] else [0xFE, 0xFF]
  }

  predicate HasBom(b: Bytes, little: bool) {
    |b| >= 2 && b[..2] == Bom(little)
  }

  /** The pairs that look like a character below U+0100 in this byte order. */
  function NarrowPairs(b: Bytes, little: bool): nat
    requires |b| % 2 == 0
  {
    if b == [] then 0
    else
      var narrow := if little then b[1] == 0 && b[0] != 0 else b[0] == 0 && b[1] != 0;
      (if narrow then 1 else 0) + NarrowPairs(b[2..], little)
  }

  predicate HasUtf16Shape(b: Bytes, little: bool) {
    |b| >= 4 && |b| % 2 == 0 && NarrowPairs(b, little) * 2 >= |b| / 2
  }

  predicate Plausible16(b: Bytes, little: bool) {
    HasUtf16Shape(b, little) && Decode16(b, little).Some?
  }

  predicate Accepts(p: Platform, b: Bytes, page: U32) {
    DecodeCodePage(p, b, page).Ok?
  }

  /** The candidates that decode the bytes, in order and with repetitions. */
  function Accepted(p: Platform, b: Bytes, candidates: seq<U32>): seq<U32> {
    if candidates == [] then []
    else
      var last := |candidates| - 1;
      Accepted(p, b, candidates[..last]) + (if Accepts(p, b, candidates[last]) then [candidates[last]] else [])
  }

  function Detect(p: Platform, b: Bytes, candidates: seq<U32>): Result<TextEncoding, AutoDetectionError> {
    if HasBom(b, true) then (if Decode16(b[2..], true).Some? then Ok(Utf16Le) else Err(InvalidBom))
    else if HasBom(b, false) then (if Decode16(b[2..], false).Some? then Ok(Utf16Be) else Err(InvalidBom))
    else if DecodeUtf8(b).Some? then Ok(Utf8)
    else if Plausible16(b, true) && Plausible16(b, false) then Err(Unknown)
    else if Plausible16(b, true) then Ok(Utf16Le)
    else if Plausible16(b, false) then Ok(Utf16Be)
    else
      var pages := Accepted(p, b, candidates);
      if |pages| == 1 then Ok(CodePage(pages[0]))
      else if pages == [] then Err(Unknown)
      else Err(Ambiguous(pages))
  }

  method DetectInput(p: Platform, bytes: Bytes, candidates: seq<U32>)
    returns (r: Result<TextEncoding, AutoDetectionError>)
    ensures r == Detect(p, bytes, candidates)
  {
    if |bytes| >= 2 && bytes[..2] == [0xFF, 0xFE] {
      return if Decode16(bytes[2..], true).None? then Err(InvalidBom) else Ok(Utf16Le);
    }
    if |bytes| >= 2 && bytes[..2] == [0xFE, 0xFF] {
      return if Decode16(bytes[2..], false).None? then Err(InvalidBom) else Ok(Utf16Be);
    }
    if DecodeUtf8(bytes).Some? {
      return Ok(Utf8);
    }
    var orders: seq<TextEncoding> := [];
    if HasUtf16Shape(bytes, true) && Decode16(bytes, true).Some? {
      orders := orders + [Utf16Le];
    }
    if HasUtf16Shape(bytes, false) && Decode16(bytes, false).Some? {
      orders := orders + [Utf16Be];
    }
    if |orders| == 1 {
      return Ok(orders[0]);
    }
    if |orders| > 1 {
      return Err(Unknown);
    }
    var pages: seq<U32> := [];
    for i := 0 to |candidates|
      invariant pages == Accepted(p, bytes, candidates[..i])
    {
      assert candidates[..i + 1][..i] == candidates[..i];
      if !ValidCodePage(candidates[i]) {
        continue;
      }
      if DecodeCodePage(p, bytes, candidates[i]).Ok? {
        pages := pages + [candidates[i]];
      }
    }
    assert candidates[..|candidates|] == candidates;
    if |pages| == 1 {
      return Ok(CodePage(pages[0]));
    }
    return if pages == [] then Err(Unknown) else Err(Ambiguous(pages));
  }

  /** A detected encoding decodes the bytes; behind a byte-order mark the text starts with U+FEFF. */
  lemma DetectedDecodes(p: Platform, b: Bytes, candidates: seq<U32>)
    requires Detect(p, b, candidates).Ok?
    ensures Decode(p, b, Detect(p, b, candidates).value).Ok?
    ensures HasBom(b, true) || HasBom(b, false) ==> Decode(p, b, Detect(p, b, candidates).value).value[..1] == [0xFEFF]
  {
    if HasBom(b, true) {
      BomDecodes(b, true);
    } else if HasBom(b, false) {
      BomDecodes(b, false);
    } else if Detect(p, b, candidates).value.CodePage? {
      AcceptedAccepts(p, b, candidates);
      assert Accepted(p, b, candidates)[0] in Accepted(p, b, candidates);
    }
  }

  lemma BomDecodes(b: Bytes, little: bool)
    requires HasBom(b, little) && Decode16(b[2..], little).Some?
    ensures Decode16(b, little) == Some([0xFEFF] + Decode16(b[2..], little).value)
  {
    assert b == Bom(little) + b[2..];
    assert FirstUnit(b, little) == 0xFEFF;
    assert BytesToUnits(b, little)[1..] == BytesToUnits(b[2..], little);
  }

  lemma {:induction false} AcceptedAccepts(p: Platform, b: Bytes, candidates: seq<U32>)
    ensures forall page :: page in Accepted(p, b, candidates) ==> page in candidates && Accepts(p, b, page)
  {
    if candidates != [] {
      AcceptedAccepts(p, b, candidates[..|candidates| - 1]);
    }
  }

  /** The candidate at position `i` and no other decodes the bytes. */
  predicate OnlyAt(p: Platform, b: Bytes, candidates: seq<U32>, i: nat) {
    i < |candidates| && forall j: nat :: j < |candidates| ==> (Accepts(p, b, candidates[j]) <==> j == i)
  }

  lemma {:induction false} NoneAccepted(p: Platform, b: Bytes, candidates: seq<U32>)
    ensures Accepted(p, b, candidates) == [] <==> forall j: nat :: j < |candidates| ==> !Accepts(p, b, candidates[j])
  {
    if candidates != [] {
      NoneAccepted(p, b, candidates[..|candidates| - 1]);
    }
  }

  /** A code page is only detected if it decodes the bytes, is listed once, and every other candidate fails. */
  lemma {:induction false} PageDetectedExactlyWhenUnique(p: Platform, b: Bytes, candidates: seq<U32>)
    ensures |Accepted(p, b, candidates)| == 1 <==> exists i: nat :: OnlyAt(p, b, candidates, i)
    ensures forall i: nat :: OnlyAt(p, b, candidates, i) ==> Accepted(p, b, candidates) == [candidates[i]]
  {
    if candidates != [] {
      var last := |candidates| - 1;
      var earlier := candidates[..last];
      NoneAccepted(p, b, earlier);
      PageDetectedExactlyWhenUnique(p, b, earlier);
      if Accepts(p, b, candidates[last]) {
        if Accepted(p, b, earlier) == [] {
          assert OnlyAt(p, b, candidates, last);
        }
      } else {
        forall i: nat ensures OnlyAt(p, b, candidates, i) <==> OnlyAt(p, b, earlier, i) {
        }
      }
    }
  }

  /** UTF-8 text is always detected as UTF-8. */
  lemma Utf8OutputIsDetected(p: Platform, t: Text, candidates: seq<U32>)
    ensures Detect(p, EncodeUtf8(t), candidates) == Ok(Utf8)
  {
    var b := EncodeUtf8(t);
    Utf8RoundTrip(t);
    assert b != [] ==> Utf8Length(b) > 0 && b[0] < 0xF5;
    assert !HasBom(b, true) && !HasBom(b, false);
  }

  /** UTF-16 output behind a byte-order mark is detected, in its byte order. */
  lemma MarkedUtf16IsDetected(p: Platform, t: Text, little: bool, candidates: seq<U32>)
    ensures Detect(p, Bom(little) + Encode16(t, little), candidates) == Ok(Order(little))
  {
    var b := Bom(little) + Encode16(t, little);
    assert b[..2] == Bom(little) && b[2..] == Encode16(t, little);
    RoundTrip16(t, little);
  }

  // Without a mark

  predicate Ascii(t: Text) {
    forall i :: 0 <= i < |t| ==> t[i] < 0x80
  }

  lemma {:induction false} AsciiBytesAreUtf8(b: Bytes)
    requires forall i :: 0 <= i < |b| ==> b[i] < 0x80
    ensures DecodeUtf8(b).Some? && |DecodeUtf8(b).value| == |b|
  {
    if b != [] { AsciiBytesAreUtf8(b[1..]); }
  }

  lemma {:induction false} AsciiPairs(t: Text, little: bool)
    requires Ascii(t)
    ensures |Encode16(t, little)| == 2 * |t|
    ensures forall i :: 0 <= i < |Encode16(t, little)| ==> Encode16(t, little)[i] < 0x80
  {
    if t != [] {
      AsciiPairs(t[1..], little);
      assert Encode16(t, little) == UnitBytes(t[0], little) + Encode16(t[1..], little) by {
        assert EncodeUtf16(t)[1..] == EncodeUtf16(t[1..]);
      }
    }
  }

  /** Unmarked UTF-16 of any ASCII text is detected as UTF-8, and decodes to something else unless it is empty. */
  lemma AsciiUtf16IsTakenForUtf8(p: Platform, t: Text, little: bool, candidates: seq<U32>)
    requires Ascii(t)
    ensures Detect(p, Encode16(t, little), candidates) == Ok(Utf8)
    ensures Decode(p, Encode16(t, little), Utf8) == Ok(t) <==> t == []
  {
    AsciiPairs(t, little);
    AsciiBytesAreUtf8(Encode16(t, little));
    var b := Encode16(t, little);
    assert !HasBom(b, true) && !HasBom(b, false);
  }

  /** The units between U+0001 and U+00FF. */
  function NarrowUnits(u: seq<Unit>): nat {
    if u == [] then 0 else (if 0 < u[0] < 256 then 1 else 0) + NarrowUnits(u[1..])
  }

  lemma {:induction false} ShapeOfText(u: seq<Unit>, little: bool)
    ensures NarrowPairs(UnitsToBytes(u, little), little) == NarrowUnits(u)
  {
    if u != [] {
      assert UnitsToBytes(u, little)[2..] == UnitsToBytes(u[1..], little);
      ShapeOfText(u[1..], little);
    }
  }

  /** The first two bytes are a mark exactly if the first character is U+FEFF, or its mirror image U+FFFE. */
  lemma MarksInText(t: Text, little: bool)
    ensures HasBom(Encode16(t, little), little) <==> t != [] && t[0] == 0xFEFF
    ensures HasBom(Encode16(t, little), !little) <==> t != [] && t[0] == 0xFFFE
  {
    if t != [] {
      var u := EncodeUtf16(t);
      assert u[0] == Utf16Char(t[0])[0] && Encode16(t, little)[..2] == UnitBytes(u[0], little);
    }
  }

  lemma MarkedText(t: Text, little: bool)
    requires t != [] && t[0] == 0xFEFF
    ensures Encode16(t, little)[2..] == Encode16(t[1..], little)
  {
    var u := EncodeUtf16(t);
    assert Utf16Char(t[0]) == [0xFEFF] && u[1..] == EncodeUtf16(t[1..]);
  }

  /** The unit with its bytes exchanged. */
  function Mirrored(u: Unit): Unit {
    Word(u / 256, u % 256)
  }

  function MirroredUnits(u: seq<Unit>): seq<Unit> {
    if u == [] then [] else [Mirrored(u[0])] + MirroredUnits(u[1..])
  }

  /** The multiples of U+0100, which look narrow in the other byte order. */
  function WideUnits(u: seq<Unit>): nat {
    if u == [] then 0 else (if u[0] % 256 == 0 && u[0] != 0 then 1 else 0) + WideUnits(u[1..])
  }

  lemma {:induction false} OtherOrder(u: seq<Unit>, little: bool)
    ensures BytesToUnits(UnitsToBytes(u, little), !little) == MirroredUnits(u)
    ensures NarrowPairs(UnitsToBytes(u, little), !little) == WideUnits(u)
  {
    if u != [] {
      assert UnitsToBytes(u, little)[2..] == UnitsToBytes(u[1..], little);
      OtherOrder(u[1..], little);
    }
  }

  /**
   At least half of two or more units lie between U+0001 and U+00FF; not as many are multiples of U+0100, or the
   units with their bytes exchanged are no UTF-16; and the bytes are no UTF-8.
   */
  predicate Recognizable(t: Text, little: bool) {
    var u := EncodeUtf16(t);
    && |u| >= 2 && NarrowUnits(u) * 2 >= |u|
    && !(WideUnits(u) * 2 >= |u| && DecodeUtf16(MirroredUnits(u)).Some?)
    && DecodeUtf8(UnitsToBytes(u, little)).None?
  }

  /**
   When UTF-16 output is detected in its own byte order: if the text starts with U+FEFF, or if it does not start
   with U+FFFE and is recognizable by its shape.
   */
  lemma Utf16DetectedExactlyWhen(p: Platform, t: Text, little: bool, candidates: seq<U32>)
    ensures Detect(p, Encode16(t, little), candidates) == Ok(Order(little))
       <==> if t != [] && t[0] == 0xFEFF then true else (t == [] || t[0] != 0xFFFE) && Recognizable(t, little)
  {
    MarksInText(t, little);
    if t != [] && t[0] == 0xFEFF {
      MarkedText(t, little);
      RoundTrip16(t[1..], little);
    } else if t == [] || t[0] != 0xFFFE {
      UnmarkedShape(t, little);
      if |EncodeUtf16(t)| >= 2 { OtherShape(t, little); }
    }
  }

  lemma OtherShape(t: Text, little: bool)
    requires |EncodeUtf16(t)| >= 2
    ensures Plausible16(Encode16(t, little), !little)
       <==> WideUnits(EncodeUtf16(t)) * 2 >= |EncodeUtf16(t)| && DecodeUtf16(MirroredUnits(EncodeUtf16(t))).Some?
  {
    var u := EncodeUtf16(t);
    OtherOrder(u, little);
    ShapeOfUnits(Encode16(t, little), !little, MirroredUnits(u), WideUnits(u));
  }

  lemma ShapeOfUnits(b: Bytes, little: bool, u: seq<Unit>, narrow: nat)
    requires |b| >= 4 && |b| % 2 == 0 && BytesToUnits(b, little) == u && NarrowPairs(b, little) == narrow
    ensures Plausible16(b, little) <==> narrow * 2 >= |u| && DecodeUtf16(u).Some?
    ensures |b| == 2 * |u|
  {
  }

  lemma UnmarkedShape(t: Text, little: bool)
    ensures Plausible16(Encode16(t, little), little) <==>
              |EncodeUtf16(t)| >= 2 && NarrowUnits(EncodeUtf16(t)) * 2 >= |EncodeUtf16(t)|
  {
    RoundTrip16(t, little);
    ShapeOfText(EncodeUtf16(t), little);
  }
}
