/** Encoding and decoding are inverse to each other in UTF-8 and UTF-16, in both directions. */
module UnicodeTheorems {
  import opened LittleEndian
  import opened Unicode
  import opened Wrappers

  function Prepend(c: Scalar, t: Option<Text>): Option<Text> {
    if t.None? then None else Some([c] + t.value)
  }

  lemma ShiftBack(n: nat)
    ensures Tail(Continuation(n)) && Shift(n / 64, Continuation(n)) == n
  {
  }

  lemma ShiftOn(high: nat, b: Byte)
    requires Tail(b)
    ensures Shift(high, b) >= 0 && Shift(high, b) / 64 == high && Continuation(Shift(high, b)) == b
  {
  }

  lemma CharDecodes(c: Scalar, rest: seq<Byte>)
    ensures Utf8Length(Utf8Char(c) + rest) == |Utf8Char(c)|
    ensures Utf8Value(Utf8Char(c) + rest) == c
  {
    ShiftBack(c);
    ShiftBack(c / 64);
    ShiftBack(c / 64 / 64);
    var b := Utf8Char(c) + rest;
    assert b[..|Utf8Char(c)|] == Utf8Char(c);
    if c < 0x80 {
    } else if c < 0x800 {
      assert Utf8Length(b) == 2;
    } else if c < 0x1_0000 {
      assert Utf8Length(b) == 3;
    } else {
      assert Utf8Length(b) == 4;
    }
  }

  lemma ValueEncodes(b: seq<Byte>)
    requires Utf8Length(b) > 0
    ensures Utf8Char(Utf8Value(b)) == b[..Utf8Length(b)]
  {
    if Utf8Length(b) == 1 {
    } else if Utf8Length(b) == 2 {
      ShiftOn(Minus(b[0], 0xC0), b[1]);
    } else if Utf8Length(b) == 3 {
      ShiftOn(Minus(b[0], 0xE0), b[1]);
      ShiftOn(Shift(Minus(b[0], 0xE0), b[1]), b[2]);
    } else {
      ShiftOn(Minus(b[0], 0xF0), b[1]);
      ShiftOn(Shift(Minus(b[0], 0xF0), b[1]), b[2]);
      ShiftOn(Shift(Shift(Minus(b[0], 0xF0), b[1]), b[2]), b[3]);
    }
  }

  /** Decoding peels off the character in front. */
  lemma DecodeFront(c: Scalar, rest: seq<Byte>)
    ensures DecodeUtf8(Utf8Char(c) + rest) == Prepend(c, DecodeUtf8(rest))
  {
    CharDecodes(c, rest);
    assert (Utf8Char(c) + rest)[|Utf8Char(c)|..] == rest;
  }

  lemma {:induction false} Utf8RoundTrip(t: Text)
    ensures DecodeUtf8(EncodeUtf8(t)) == Some(t)
  {
    if t != [] {
      DecodeFront(t[0], EncodeUtf8(t[1..]));
      Utf8RoundTrip(t[1..]);
      assert [t[0]] + t[1..] == t;
    }
  }

  lemma EncodeFront(c: Scalar, t: Text)
    ensures EncodeUtf8([c] + t) == Utf8Char(c) + EncodeUtf8(t)
  {
    assert ([c] + t)[1..] == t;
  }

  lemma SplitFront(b: seq<Byte>) returns (c: Scalar, front: seq<Byte>, rest: seq<Byte>)
    requires b != [] && DecodeUtf8(b).Some?
    ensures b == front + rest && |rest| < |b| && front == Utf8Char(c) && DecodeUtf8(b) == Prepend(c, DecodeUtf8(rest))
  {
    var n := Utf8Length(b);
    c, front, rest := Utf8Value(b), b[..n], b[n..];
    ValueEncodes(b);
  }

  /** No two byte sequences decode to the same text: overlong forms and surrogates are rejected. */
  lemma {:induction false} Utf8Canonical(b: seq<Byte>)
    requires DecodeUtf8(b).Some?
    ensures EncodeUtf8(DecodeUtf8(b).value) == b
    decreases |b|
  {
    if b != [] {
      var c, front, rest := SplitFront(b);
      Utf8Canonical(rest);
      EncodeFront(c, DecodeUtf8(rest).value);
    }
  }

  lemma {:induction false} Utf8Append(a: Text, b: Text)
    ensures EncodeUtf8(a + b) == EncodeUtf8(a) + EncodeUtf8(b)
  {
    if a == [] {
      assert a + b == b;
    } else {
      assert (a + b)[1..] == a[1..] + b;
      Utf8Append(a[1..], b);
    }
  }

  lemma {:induction false} Utf16RoundTrip(t: Text)
    ensures DecodeUtf16(EncodeUtf16(t)) == Some(t)
  {
    if t != [] {
      var first, rest := Utf16Char(t[0]), EncodeUtf16(t[1..]);
      assert (first + rest)[|first|..] == rest;
      Utf16RoundTrip(t[1..]);
      assert [t[0]] + t[1..] == t;
    }
  }

  lemma {:induction false} Utf16Canonical(u: seq<Unit>)
    requires DecodeUtf16(u).Some?
    ensures EncodeUtf16(DecodeUtf16(u).value) == u
    decreases |u|
  {
    if u != [] {
      var n := if u[0] < 0xD800 || u[0] >= 0xE000 then 1 else 2;
      Utf16Canonical(u[n..]);
      var t := DecodeUtf16(u).value;
      assert t[1..] == DecodeUtf16(u[n..]).value;
      assert u == u[..n] + u[n..];
    }
  }

  lemma {:induction false} Utf16Append(a: Text, b: Text)
    ensures EncodeUtf16(a + b) == EncodeUtf16(a) + EncodeUtf16(b)
  {
    if a == [] {
      assert a + b == b;
    } else {
      assert (a + b)[1..] == a[1..] + b;
      Utf16Append(a[1..], b);
    }
  }

  lemma {:induction false} UnitsRoundTrip(u: seq<Unit>, little: bool)
    ensures BytesToUnits(UnitsToBytes(u, little), little) == u
  {
    if u != [] {
      assert UnitsToBytes(u, little)[2..] == UnitsToBytes(u[1..], little);
      UnitsRoundTrip(u[1..], little);
    }
  }

  lemma {:induction false} UnitsCanonical(b: seq<Byte>, little: bool)
    requires |b| % 2 == 0
    ensures UnitsToBytes(BytesToUnits(b, little), little) == b
    decreases |b|
  {
    if b != [] {
      assert BytesToUnits(b, little)[1..] == BytesToUnits(b[2..], little);
      UnitsCanonical(b[2..], little);
      assert b == [b[0], b[1]] + b[2..];
    }
  }

  lemma {:induction false} UnitsAppend(a: seq<Unit>, b: seq<Unit>, little: bool)
    ensures UnitsToBytes(a + b, little) == UnitsToBytes(a, little) + UnitsToBytes(b, little)
  {
    if a == [] {
      assert a + b == b;
    } else {
      assert (a + b)[1..] == a[1..] + b;
      UnitsAppend(a[1..], b, little);
    }
  }

  // ---------------------------------------------------------------------------------------------
  // The forms themselves
  // ---------------------------------------------------------------------------------------------

  /** UTF-8 (section 3 of RFC 3629): how many bytes, the range of each, and what each contributes to the character. */
  lemma Utf8Layout(c: Scalar)
    ensures var b := Utf8Char(c);
            && |b| == (if c <= 0x7F then 1 else if c <= 0x7FF then 2 else if c <= 0xFFFF then 3 else 4)
            && (forall k :: 0 < k < |b| ==> 0x80 <= b[k] <= 0xBF)
            && (|b| == 1 ==> b[0] == c)
            && (|b| == 2 ==> 0xC2 <= b[0] <= 0xDF)
            && (|b| == 3 ==> 0xE0 <= b[0] <= 0xEF)
            && (|b| == 4 ==> 0xF0 <= b[0] <= 0xF4)
    ensures var b := Utf8Char(c);
            && (|b| == 2 ==> c == 64 * Minus(b[0], 0xC0) + Minus(b[1], 0x80))
            && (|b| == 3 ==> c == 4096 * Minus(b[0], 0xE0) + 64 * Minus(b[1], 0x80) + Minus(b[2], 0x80))
            && (|b| == 4 ==>
                  c == 262144 * Minus(b[0], 0xF0) + 4096 * Minus(b[1], 0x80) + 64 * Minus(b[2], 0x80)
                       + Minus(b[3], 0x80))
  {
  }

  /** UTF-16 (section 2.1 of RFC 2781): the character itself, or ten bits in each of a high and a low surrogate. */
  lemma Utf16Layout(c: Scalar)
    ensures var u := Utf16Char(c);
            if c <= 0xFFFF then u == [c]
            else
              && |u| == 2 && 0xD800 <= u[0] <= 0xDBFF && 0xDC00 <= u[1] <= 0xDFFF
              && c == 0x1_0000 + 1024 * (u[0] as int - 0xD800) + (u[1] as int - 0xDC00)
  {
  }

  lemma {:induction false} UnitAt(u: seq<Unit>, little: bool, k: nat)
    requires k < |u|
    ensures UnitsToBytes(u, little)[2 * k..2 * k + 2] == UnitBytes(u[k], little)
  {
    var first, rest := UnitBytes(u[0], little), UnitsToBytes(u[1..], little);
    if k > 0 {
      UnitAt(u[1..], little, k - 1);
      PairBehind(first, rest, k);
    } else {
      assert (first + rest)[0..2] == first;
    }
  }

  lemma PairBehind(first: seq<Byte>, rest: seq<Byte>, k: nat)
    requires |first| == 2 && 0 < k && 2 * k <= |rest|
    ensures (first + rest)[2 * k..2 * k + 2] == rest[2 * (k - 1)..2 * (k - 1) + 2]
  {
  }

  /** Two bytes a unit, the low one first in one order and last in the other. */
  lemma UnitsAt(u: seq<Unit>, k: nat)
    requires k < |u|
    ensures var b := UnitsToBytes(u, true); b[2 * k] as nat + 256 * b[2 * k + 1] as nat == u[k]
    ensures var b := UnitsToBytes(u, false); 256 * b[2 * k] as nat + b[2 * k + 1] as nat == u[k]
  {
    UnitAt(u, true, k);
    UnitAt(u, false, k);
    PairAt(UnitsToBytes(u, true), 2 * k, UnitBytes(u[k], true));
    PairAt(UnitsToBytes(u, false), 2 * k, UnitBytes(u[k], false));
  }

  lemma PairAt(b: seq<Byte>, at: nat, pair: seq<Byte>)
    requires at + 2 <= |b| && |pair| == 2 && b[at..at + 2] == pair
    ensures b[at] == pair[0] && b[at + 1] == pair[1]
  {
    assert b[at..at + 2][0] == b[at] && b[at..at + 2][1] == b[at + 1];
  }
}
