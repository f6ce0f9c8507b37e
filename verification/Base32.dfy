/**
 Base32 decoding of one-time-password secrets (cli/src/commands/plugin.rs:687-710), against the encoding of
 section 6 of RFC 4648 without padding.
 */
module Base32 {
  import opened LittleEndian
  import opened Powers
  import opened Unicode
  import opened UnicodeTheorems
  import opened Wrappers

  type Bits = seq<bool>

  // ---------------------------------------------------------------------------------------------
  // Bit strings, most significant bit first
  // ---------------------------------------------------------------------------------------------

  function ToBits(v: nat, width: nat): (b: Bits)
    ensures |b| == width
  {
    if width == 0 then [] else ToBits(v / 2, width - 1) + [v % 2 == 1]
  }

  function Value(b: Bits): (v: nat)
    ensures v < Pow2(|b|)
  {
    if b == [] then 0 else 2 * Value(b[..|b| - 1]) + (if b[|b| - 1] then 1 else 0)
  }

  lemma {:induction false} ValueOfBits(v: nat, width: nat)
    requires v < Pow2(width)
    ensures Value(ToBits(v, width)) == v
  {
    if width > 0 {
      ValueOfBits(v / 2, width - 1);
      assert ToBits(v, width)[..width - 1] == ToBits(v / 2, width - 1);
    }
  }

  lemma {:induction false} BitsOfValue(b: Bits)
    ensures ToBits(Value(b), |b|) == b
  {
    if b != [] {
      BitsOfValue(b[..|b| - 1]);
      assert b == b[..|b| - 1] + [b[|b| - 1]];
    }
  }

  /** The complete groups of `w` bits; bits left over at the end are dropped. */
  function Groups(b: Bits, w: nat): seq<nat>
    requires w > 0
  {
    if |b| < w then [] else [Value(b[..w])] + Groups(b[w..], w)
  }

  /** The bits left over. */
  function Rest(b: Bits, w: nat): (r: Bits)
    requires w > 0
    ensures |r| < w
  {
    if |b| < w then b else Rest(b[w..], w)
  }

  function Spread(values: seq<nat>, w: nat): Bits {
    if values == [] then [] else ToBits(values[0], w) + Spread(values[1..], w)
  }

  ghost predicate Fit(values: seq<nat>, w: nat) {
    forall i :: 0 <= i < |values| ==> values[i] < Pow2(w)
  }

  lemma GroupsFront(group: Bits, rest: Bits, w: nat)
    requires |group| == w > 0
    ensures Groups(group + rest, w) == [Value(group)] + Groups(rest, w) && Rest(group + rest, w) == Rest(rest, w)
  {
    assert (group + rest)[..w] == group && (group + rest)[w..] == rest;
  }

  lemma FirstGroup(values: seq<nat>, w: nat, tail: Bits)
    requires w > 0 && values != [] && values[0] < Pow2(w)
    ensures Groups(Spread(values, w) + tail, w) == [values[0]] + Groups(Spread(values[1..], w) + tail, w)
  {
    var group, rest := ToBits(values[0], w), Spread(values[1..], w);
    assert group + rest + tail == group + (rest + tail);
    GroupsFront(group, rest + tail, w);
    ValueOfBits(values[0], w);
  }

  lemma {:induction false} GroupsOfSpread(values: seq<nat>, w: nat, tail: Bits)
    requires w > 0 && Fit(values, w) && |tail| < w
    ensures Groups(Spread(values, w) + tail, w) == values
  {
    if values == [] {
      assert Spread(values, w) + tail == tail;
    } else {
      GroupsOfSpread(values[1..], w, tail);
      FirstGroup(values, w, tail);
      assert [values[0]] + values[1..] == values;
    }
  }

  lemma {:induction false} GroupsFit(b: Bits, w: nat)
    requires w > 0
    ensures Fit(Groups(b, w), w)
    decreases |b|
  {
    if |b| >= w { GroupsFit(b[w..], w); }
  }

  lemma SpreadBehind(group: Bits, rest: Bits, w: nat)
    requires |group| == w > 0 && Spread(Groups(rest, w), w) + Rest(rest, w) == rest
    ensures Spread(Groups(group + rest, w), w) + Rest(group + rest, w) == group + rest
  {
    GroupsFront(group, rest, w);
    BitsOfValue(group);
    SpreadFront(Value(group), Groups(rest, w), w, Rest(rest, w));
  }

  lemma {:induction false} SpreadOfGroups(b: Bits, w: nat)
    requires w > 0
    ensures Spread(Groups(b, w), w) + Rest(b, w) == b
    decreases |b|
  {
    if |b| < w {
      assert [] + b == b;
    } else {
      SpreadOfGroups(b[w..], w);
      SpreadBehind(b[..w], b[w..], w);
      assert b[..w] + b[w..] == b;
    }
  }

  lemma SpreadFront(v: nat, values: seq<nat>, w: nat, tail: Bits)
    ensures Spread([v] + values, w) + tail == ToBits(v, w) + (Spread(values, w) + tail)
    ensures Fit(values, w) && v < Pow2(w) ==> Fit([v] + values, w)
  {
    assert ([v] + values)[1..] == values;
  }

  /** Grouping a concatenation goes on with the bits the first part leaves over. */
  ghost predicate GoesOn(a: Bits, b: Bits, w: nat)
    requires w > 0
  {
    && Groups(a + b, w) == Groups(a, w) + Groups(Rest(a, w) + b, w)
    && Rest(a + b, w) == Rest(Rest(a, w) + b, w)
  }

  lemma GroupInFront(group: Bits, rest: Bits, b: Bits, w: nat)
    requires |group| == w > 0 && GoesOn(rest, b, w)
    ensures GoesOn(group + rest, b, w)
  {
    assert group + rest + b == group + (rest + b);
    GroupsFront(group, rest, w);
    GroupsFront(group, rest + b, w);
    var first, last := Groups(rest, w), Groups(Rest(rest, w) + b, w);
    assert [Value(group)] + (first + last) == [Value(group)] + first + last;
  }

  lemma {:induction false} GroupsAppend(a: Bits, b: Bits, w: nat)
    requires w > 0
    ensures GoesOn(a, b, w)
    decreases |a|
  {
    if |a| >= w {
      GroupsAppend(a[w..], b, w);
      GroupInFront(a[..w], a[w..], b, w);
      assert a == a[..w] + a[w..];
    } else {
      assert [] + Groups(a + b, w) == Groups(a + b, w);
    }
  }

  lemma {:induction false} SpreadAppend(values: seq<nat>, v: nat, w: nat)
    ensures Spread(values + [v], w) == Spread(values, w) + ToBits(v, w)
  {
    if values == [] {
      assert [v][1..] == [];
      assert ToBits(v, w) + Spread([v][1..], w) == Spread([], w) + ToBits(v, w);
    } else {
      assert (values + [v])[1..] == values[1..] + [v];
      SpreadAppend(values[1..], v, w);
    }
  }

  // ---------------------------------------------------------------------------------------------
  // The encoding
  // ---------------------------------------------------------------------------------------------

  /** The letters A to Z for 0 to 25, the digits 2 to 7 for 26 to 31. */
  function Letter(v: nat): Byte
    requires v < 32
  {
    if v < 26 then 65 + v else 24 + v
  }

  function LetterValue(c: nat): Option<nat> {
    if 65 <= c <= 90 then Some(c - 65)
    else if 50 <= c <= 55 then Some(c - 24)
    else None
  }

  function Zeros(n: nat): (z: Bits)
    ensures |z| == n
  {
    if n == 0 then [] else Zeros(n - 1) + [false]
  }

  /** Zero bits up to a multiple of five. */
  function Padded(b: Bits): Bits {
    b + Zeros((5 - |b| % 5) % 5)
  }

  function Numbers(b: seq<Byte>): (n: seq<nat>)
    ensures |n| == |b| && forall i :: 0 <= i < |b| ==> n[i] == b[i]
  {
    if b == [] then [] else [b[0] as nat] + Numbers(b[1..])
  }

  function Letters(values: seq<nat>): Text
    requires forall i :: 0 <= i < |values| ==> values[i] < 32
  {
    if values == [] then [] else Letters(values[..|values| - 1]) + [Letter(values[|values| - 1])]
  }

  function Symbols(b: seq<Byte>): seq<nat> {
    Groups(Padded(Spread(Numbers(b), 8)), 5)
  }

  lemma SymbolsFit(b: seq<Byte>)
    ensures forall i :: 0 <= i < |Symbols(b)| ==> Symbols(b)[i] < 32
  {
    GroupsFit(Padded(Spread(Numbers(b), 8)), 5);
    assert Pow2(2) == 4 && Pow2(5) == 32;
  }

  /** The unpadded encoding of a byte string. */
  function Encode(b: seq<Byte>): Text {
    SymbolsFit(b);
    Letters(Symbols(b))
  }

  // ---------------------------------------------------------------------------------------------
  // The decoder
  // ---------------------------------------------------------------------------------------------

  predicate IsWhitespace(c: Scalar) {
    9 <= c <= 13 || c == 0x20 || c == 0x85 || c == 0xA0 || c == 0x1680 || 0x2000 <= c <= 0x200A
    || c == 0x2028 || c == 0x2029 || c == 0x202F || c == 0x205F || c == 0x3000
  }

  function Upper(c: Scalar): Scalar {
    if 97 <= c <= 122 then c - 32 else c
  }

  /** Without whitespace, and in upper case. */
  function Clean(s: Text): Text {
    if s == [] then []
    else (if IsWhitespace(s[0]) then [] else [Upper(s[0])]) + Clean(s[1..])
  }

  /** The value of each byte, or the first byte that has none. */
  function Values(bytes: seq<Byte>): Result<seq<nat>, Byte> {
    if bytes == [] then Ok([])
    else
      var before := Values(bytes[..|bytes| - 1]);
      var last := bytes[|bytes| - 1];
      if before.Err? then before
      else if LetterValue(last).None? then Err(last)
      else Ok(before.value + [LetterValue(last).value])
  }

  /** What decoding means: the bits of the values, in groups of eight. */
  function Decoded(s: Text): Result<seq<nat>, Byte> {
    var values := Values(EncodeUtf8(Clean(s)));
    if values.Err? then Err(values.error) else Ok(Groups(Spread(values.value, 5), 8))
  }

  // The accumulator

  /** `v >> n` */
  function Shr(v: nat, n: nat): nat {
    if n == 0 then v else Shr(v / 2, n - 1)
  }

  /** `(bits << 5) | val` on 32 bits: high bits are shed. */
  function ShiftIn(bits: nat, v: nat): nat {
    bits * 32 % 0x1_0000_0000 + v
  }

  lemma {:induction false} SplitBits(v: nat, n: nat, m: nat)
    ensures ToBits(v, m + n) == ToBits(Shr(v, n), m) + ToBits(v, n)
    decreases n
  {
    if n == 0 {
      assert ToBits(v, m) + [] == ToBits(v, m);
    } else {
      SplitBits(v / 2, n - 1, m);
      var high, low := ToBits(Shr(v, n), m), ToBits(v / 2, n - 1);
      assert high + low + [v % 2 == 1] == high + (low + [v % 2 == 1]);
    }
  }

  predicate EvenBy(h: nat, n: nat) {
    n == 0 || (h % 2 == 0 && EvenBy(h / 2, n - 1))
  }

  /** Bits above the lowest `n` do not show in them. */
  lemma {:induction false} DropHigh(low: nat, h: nat, n: nat)
    requires EvenBy(h, n)
    ensures ToBits(low + h, n) == ToBits(low, n)
  {
    if n > 0 {
      assert (low + h) / 2 == low / 2 + h / 2;
      DropHigh(low / 2, h / 2, n - 1);
    }
  }

  lemma EvenDouble(h: nat, n: nat)
    requires EvenBy(h, n)
    ensures EvenBy(2 * h, n + 1)
  {
    assert 2 * h / 2 == h;
  }

  lemma {:induction false} EvenFewer(h: nat, n: nat, m: nat)
    requires m <= n && EvenBy(h, n)
    ensures EvenBy(h, m)
  {
    if m > 0 { EvenFewer(h / 2, n - 1, m - 1); }
  }

  lemma EvenBy5(h: nat)
    ensures EvenBy(32 * h, 5)
  {
    EvenDouble(h, 0);
    EvenDouble(2 * h, 1);
    EvenDouble(4 * h, 2);
    EvenDouble(8 * h, 3);
    EvenDouble(16 * h, 4);
  }

  lemma EvenBy8(h: nat)
    ensures EvenBy(256 * h, 8)
  {
    EvenBy5(h);
    EvenDouble(32 * h, 5);
    EvenDouble(64 * h, 6);
    EvenDouble(128 * h, 7);
  }

  /** Shifting in five bits appends them to the low bits; the shed bits never reach those. */
  lemma ShiftedBits(bits: nat, n: nat, v: nat)
    requires bits < 0x1_0000_0000 && n < 8 && v < 32
    ensures ShiftIn(bits, v) < 0x1_0000_0000
    ensures ToBits(ShiftIn(bits, v), n + 5) == ToBits(bits, n) + ToBits(v, 5)
  {
    var x, kept, shed := ShiftIn(bits, v), bits % 0x800_0000, bits / 0x800_0000;
    assert x == v + 32 * kept;
    SplitBits(x, 5, n);
    Shr5(kept, v);
    LowFive(kept, v);
    ShedBits(kept, shed, n);
  }

  lemma LowFive(kept: nat, v: nat)
    ensures ToBits(v + 32 * kept, 5) == ToBits(v, 5)
  {
    EvenBy5(kept);
    DropHigh(v, 32 * kept, 5);
  }

  lemma ShedBits(kept: nat, shed: nat, n: nat)
    requires n < 8
    ensures ToBits(kept + 0x800_0000 * shed, n) == ToBits(kept, n)
  {
    EvenBy8(0x8_0000 * shed);
    EvenFewer(0x800_0000 * shed, 8, n);
    DropHigh(kept, 0x800_0000 * shed, n);
  }

  lemma Shr5(kept: nat, v: nat)
    requires v < 32
    ensures Shr(v + 32 * kept, 5) == kept
  {
    var x1 := v / 2 + 16 * kept;
    var x2 := v / 4 + 8 * kept;
    var x3 := v / 8 + 4 * kept;
    var x4 := v / 16 + 2 * kept;
    assert Shr(x4, 1) == kept;
    assert Shr(x3, 2) == Shr(x4, 1);
    assert Shr(x2, 3) == Shr(x3, 2);
    assert Shr(x1, 4) == Shr(x2, 3);
  }

  lemma LowByte(x: nat)
    ensures Value(ToBits(x, 8)) == x % 256
  {
    EvenBy8(x / 256);
    DropHigh(x % 256, 256 * (x / 256), 8);
    assert Pow2(4) == 16 && Pow2(8) == 256;
    ValueOfBits(x % 256, 8);
  }

  /** The low bits of the accumulator are the bits left over. */
  ghost predicate Holds(bits: nat, nbits: nat, rest: Bits) {
    bits < 0x1_0000_0000 && nbits < 8 && ToBits(bits, nbits) == rest
  }

  lemma Feed(bits: nat, nbits: nat, rest: Bits, v: nat)
    requires Holds(bits, nbits, rest) && v < 32
    ensures var all, next := rest + ToBits(v, 5), ShiftIn(bits, v);
            if nbits + 5 < 8 then Groups(all, 8) == [] && Holds(next, nbits + 5, Rest(all, 8))
            else Groups(all, 8) == [Shr(next, nbits - 3) % 256] && Holds(next, nbits - 3, Rest(all, 8))
  {
    var all, next := rest + ToBits(v, 5), ShiftIn(bits, v);
    ShiftedBits(bits, nbits, v);
    if nbits >= 3 {
      SplitBits(next, nbits - 3, 8);
      assert all[..8] == ToBits(Shr(next, nbits - 3), 8) && all[8..] == ToBits(next, nbits - 3);
      LowByte(Shr(next, nbits - 3));
    }
  }

  lemma Appended(values: seq<nat>, v: nat)
    ensures var before := Spread(values, 5);
            && Groups(Spread(values + [v], 5), 8) == Groups(before, 8) + Groups(Rest(before, 8) + ToBits(v, 5), 8)
            && Rest(Spread(values + [v], 5), 8) == Rest(Rest(before, 8) + ToBits(v, 5), 8)
  {
    SpreadAppend(values, v, 5);
    GroupsAppend(Spread(values, 5), ToBits(v, 5), 8);
  }

  /** The bytes and the accumulator after these values. */
  ghost predicate Accumulated(values: seq<nat>, out: seq<Byte>, bits: nat, nbits: nat) {
    Numbers(out) == Groups(Spread(values, 5), 8) && Holds(bits, nbits, Rest(Spread(values, 5), 8))
  }

  lemma NumbersAppend(b: seq<Byte>, next: Byte)
    ensures Numbers(b + [next]) == Numbers(b) + [next as nat]
  {
  }

  /** One more value either adds its bits to the accumulator or completes a byte. */
  lemma Accumulate(values: seq<nat>, out: seq<Byte>, bits: nat, nbits: nat, v: nat)
    requires Accumulated(values, out, bits, nbits) && v < 32
    ensures var next := ShiftIn(bits, v);
            if nbits + 5 < 8 then Accumulated(values + [v], out, next, nbits + 5)
            else Accumulated(values + [v], out + [Shr(next, nbits - 3) % 256], next, nbits - 3)
  {
    Feed(bits, nbits, Rest(Spread(values, 5), 8), v);
    Appended(values, v);
    if nbits + 5 >= 8 { NumbersAppend(out, Shr(ShiftIn(bits, v), nbits - 3) % 256); }
  }

  /** The bytes behind the secret, or the first byte outside the alphabet. */
  method Base32Decode(s: Text) returns (r: Result<seq<Byte>, Byte>)
    ensures r.Ok? ==> Decoded(s) == Ok(Numbers(r.value))
    ensures r.Err? ==> Decoded(s) == Err(r.error)
  {
    var clean := EncodeUtf8(Clean(s));
    var bits, nbits: nat, out: seq<Byte> := 0, 0, [];
    ghost var values: seq<nat> := [];
    for i := 0 to |clean|
      invariant Values(clean[..i]) == Ok(values)
      invariant Accumulated(values, out, bits, nbits)
    {
      ValuesNext(clean, i);
      var val := LetterValue(clean[i]);
      if val.None? {
        ErrorStays(clean, i + 1);
        return Err(clean[i]);
      }
      Accumulate(values, out, bits, nbits, val.value);
      values := values + [val.value];
      bits := ShiftIn(bits, val.value);
      nbits := nbits + 5;
      if nbits >= 8 {
        nbits := nbits - 8;
        out := out + [Shr(bits, nbits) % 256];
      }
    }
    assert clean[..|clean|] == clean;
    return Ok(out);
  }

  lemma ValuesNext(bytes: seq<Byte>, i: nat)
    requires i < |bytes| && Values(bytes[..i]).Ok?
    ensures Values(bytes[..i + 1]) ==
              if LetterValue(bytes[i]).None? then Err(bytes[i])
              else Ok(Values(bytes[..i]).value + [LetterValue(bytes[i]).value])
  {
    assert bytes[..i + 1][..i] == bytes[..i];
  }

  lemma {:induction false} ErrorStays(bytes: seq<Byte>, i: nat)
    requires i <= |bytes| && Values(bytes[..i]).Err?
    ensures Values(bytes) == Values(bytes[..i])
    decreases |bytes|
  {
    if i < |bytes| {
      var shorter := bytes[..|bytes| - 1];
      assert shorter[..i] == bytes[..i];
      ErrorStays(shorter, i);
    } else {
      assert bytes[..i] == bytes;
    }
  }

  // ---------------------------------------------------------------------------------------------
  // Decoding undoes encoding
  // ---------------------------------------------------------------------------------------------

  lemma OneLetter(v: nat)
    requires v < 32
    ensures var c: Scalar := Letter(v);
            Clean([c]) == [c] && EncodeUtf8([c]) == [Letter(v)]
  {
    var c: Scalar := Letter(v);
    assert Clean([c]) == [c] + Clean([c][1..]);
    assert EncodeUtf8([c]) == [Letter(v)] + EncodeUtf8([c][1..]);
  }

  /** The values of letters are the values they were made from; cleaning leaves letters alone. */
  lemma {:induction false} ValuesOfLetters(values: seq<nat>)
    requires forall i :: 0 <= i < |values| ==> values[i] < 32
    ensures Clean(Letters(values)) == Letters(values) && Values(EncodeUtf8(Letters(values))) == Ok(values)
  {
    if values != [] {
      var last := |values| - 1;
      var before, c: Scalar := Letters(values[..last]), Letter(values[last]);
      ValuesOfLetters(values[..last]);
      CleanAppend(before, [c]);
      Utf8Append(before, [c]);
      OneLetter(values[last]);
      var bytes := EncodeUtf8(before) + [Letter(values[last])];
      assert bytes[..|bytes| - 1] == EncodeUtf8(before);
      assert values == values[..last] + [values[last]];
    }
  }

  lemma {:induction false} NothingLeft(b: Bits)
    requires |b| % 5 == 0
    ensures Rest(b, 5) == []
    decreases |b|
  {
    if |b| >= 5 { NothingLeft(b[5..]); }
  }

  lemma PaddedBits(octets: Bits)
    ensures Spread(Groups(Padded(octets), 5), 5) == Padded(octets)
  {
    WholeGroups(Padded(octets));
  }

  lemma WholeGroups(b: Bits)
    requires |b| % 5 == 0
    ensures Spread(Groups(b, 5), 5) == b
  {
    SpreadOfGroups(b, 5);
    NothingLeft(b);
    var spread := Spread(Groups(b, 5), 5);
    assert spread + [] == spread;
  }

  /** For every byte string, decoding its unpadded encoding returns it. */
  lemma DecodeUndoesEncode(b: seq<Byte>)
    ensures Decoded(Encode(b)) == Ok(Numbers(b))
  {
    EncodeKeepsBits(b);
    PaddedGroups(b);
  }

  lemma BytesFit(b: seq<Byte>)
    ensures Fit(Numbers(b), 8)
  {
    assert Pow2(4) == 16 && Pow2(8) == 256;
  }

  /** The padding is too short for a group of its own. */
  lemma PaddedGroups(b: seq<Byte>)
    ensures Groups(Padded(Spread(Numbers(b), 8)), 8) == Numbers(b)
  {
    BytesFit(b);
    GroupsOfSpread(Numbers(b), 8, Zeros((5 - |Spread(Numbers(b), 8)| % 5) % 5));
  }

  lemma EncodeKeepsBits(b: seq<Byte>)
    ensures Decoded(Encode(b)) == Ok(Groups(Padded(Spread(Numbers(b), 8)), 8))
  {
    SymbolsFit(b);
    ValuesOfLetters(Symbols(b));
    PaddedBits(Spread(Numbers(b), 8));
  }

  // ---------------------------------------------------------------------------------------------
  // What the decoder ignores and what it rejects
  // ---------------------------------------------------------------------------------------------

  lemma {:induction false} CleanAppend(a: Text, b: Text)
    ensures Clean(a + b) == Clean(a) + Clean(b)
  {
    if a == [] {
      assert a + b == b;
    } else {
      assert (a + b)[1..] == a[1..] + b;
      CleanAppend(a[1..], b);
    }
  }

  /** The code points with the property White_Space. */
  predicate WhiteSpace(c: nat) {
    || 0x09 <= c <= 0x0D || c == 0x20 || c == 0x85 || c == 0xA0 || c == 0x1680
    || 0x2000 <= c <= 0x200A || 0x2028 <= c <= 0x2029 || c == 0x202F || c == 0x205F || c == 0x3000
  }

  /** Letters of either case and the digits 2 to 7. */
  predicate InAlphabet(c: nat) {
    65 <= c <= 90 || 97 <= c <= 122 || 50 <= c <= 55
  }

  lemma DecodableIs(c: Scalar)
    ensures Decodable(c) <==> WhiteSpace(c) || InAlphabet(c)
    ensures IsWhitespace(c) <==> WhiteSpace(c)
  {
  }

  /** Whitespace inserted anywhere changes nothing. */
  lemma WhitespaceIsIgnored(a: Text, w: Text, b: Text)
    requires forall i :: 0 <= i < |w| ==> WhiteSpace(w[i])
    ensures Decoded(a + w + b) == Decoded(a + b)
  {
    CleanAppend(a + w, b);
    CleanAppend(a, w);
    CleanAppend(a, b);
    AllWhitespace(w);
    assert Clean(a) + [] == Clean(a);
  }

  lemma {:induction false} AllWhitespace(w: Text)
    requires forall i :: 0 <= i < |w| ==> IsWhitespace(w[i])
    ensures Clean(w) == []
  {
    if w != [] { AllWhitespace(w[1..]); }
  }

  /** Equal, or an ASCII letter in its two cases. */
  predicate SameLetter(c: Scalar, d: Scalar) {
    c == d || (65 <= c <= 90 && d == c + 32) || (65 <= d <= 90 && c == d + 32)
  }

  /** The case of letters makes no difference. */
  lemma {:induction false} CaseIsIgnored(s: Text, t: Text)
    requires |s| == |t| && forall i :: 0 <= i < |s| ==> SameLetter(s[i], t[i])
    ensures Clean(s) == Clean(t) && Decoded(s) == Decoded(t)
  {
    if s != [] {
      assert SameLetter(s[0], t[0]);
      CaseIsIgnored(s[1..], t[1..]);
    }
  }

  predicate Decodable(c: Scalar) {
    IsWhitespace(c) || LetterValue(Upper(c)).Some?
  }

  lemma {:induction false} CleanLetters(s: Text)
    ensures (forall c :: c in Clean(s) ==> LetterValue(c).Some?) <==> (forall c :: c in s ==> Decodable(c))
  {
    if s != [] {
      var rest := s[1..];
      CleanLetters(rest);
      assert s == [s[0]] + rest;
      if forall c :: c in s ==> Decodable(c) {
        assert Decodable(s[0]);
        assert forall c :: c in rest ==> c in s;
      } else if forall c :: c in rest ==> Decodable(c) {
        assert Upper(s[0]) in Clean(s);
      } else {
        assert forall c :: c in Clean(rest) ==> c in Clean(s);
      }
    }
  }

  lemma {:induction false} LetterBytes(t: Text)
    ensures (forall x :: x in EncodeUtf8(t) ==> LetterValue(x).Some?) <==> (forall c :: c in t ==> LetterValue(c).Some?)
  {
    if t != [] {
      LetterBytes(t[1..]);
      assert t == [t[0]] + t[1..];
      var first := Utf8Char(t[0]);
      assert LetterValue(t[0]).Some? ==> first == [t[0] as Byte];
      assert first[0] in first && (LetterValue(first[0]).Some? <==> LetterValue(t[0]).Some?);
    }
  }

  lemma {:induction false} ValuesExist(bytes: seq<Byte>)
    ensures Values(bytes).Ok? <==> forall x :: x in bytes ==> LetterValue(x).Some?
  {
    if bytes != [] {
      ValuesExist(bytes[..|bytes| - 1]);
      assert bytes == bytes[..|bytes| - 1] + [bytes[|bytes| - 1]];
    }
  }

  /**
   Decoding succeeds exactly when every character is whitespace or in the alphabet: padding `=` is rejected, any
   length is not.
   */
  lemma DecodesExactlyWhen(s: Text)
    ensures Decoded(s).Ok? <==> forall i :: 0 <= i < |s| ==> WhiteSpace(s[i]) || InAlphabet(s[i])
  {
    CleanLetters(s);
    LetterBytes(Clean(s));
    ValuesExist(EncodeUtf8(Clean(s)));
    forall i | 0 <= i < |s| ensures Decodable(s[i]) <==> WhiteSpace(s[i]) || InAlphabet(s[i]) {
      DecodableIs(s[i]);
    }
    assert forall i :: 0 <= i < |s| ==> s[i] in s;
  }

  lemma ValuesAppend(a: seq<Byte>, x: Byte, b: seq<Byte>)
    requires Values(a).Ok? && LetterValue(x).None?
    ensures Values(a + [x] + b) == Err(x)
  {
    var front := a + [x];
    assert front[..|a|] == a;
    assert (front + b)[..|front|] == front;
    ErrorStays(front + b, |front|);
  }

  lemma BadFirstByte(c: Scalar)
    requires !WhiteSpace(c) && !InAlphabet(c)
    ensures LetterValue(Utf8Char(c)[0]).None?
  {
  }

  lemma CleanAround(a: Text, c: Scalar, b: Text)
    requires !WhiteSpace(c) && !InAlphabet(c)
    ensures Clean(a + [c] + b) == Clean(a) + [c] + Clean(b)
  {
    DecodableIs(c);
    CleanAppend(a + [c], b);
    CleanAppend(a, [c]);
    assert Clean([c]) == [c] + Clean([c][1..]);
  }

  lemma OneCharacter(c: Scalar)
    ensures EncodeUtf8([c]) == Utf8Char(c)
  {
    assert [c][1..] == [];
  }

  lemma EncodeAround(a: Text, c: Scalar, b: Text)
    ensures EncodeUtf8(a + [c] + b) == EncodeUtf8(a) + Utf8Char(c) + EncodeUtf8(b)
  {
    Utf8Append(a + [c], b);
    Utf8Append(a, [c]);
    OneCharacter(c);
  }

  lemma FirstOf(front: seq<Byte>, bytes: seq<Byte>, back: seq<Byte>)
    requires bytes != []
    ensures front + [bytes[0]] + (bytes[1..] + back) == front + bytes + back
  {
  }

  /** The error is the first byte of the first character that is neither. */
  lemma ErrorIsFirstBad(a: Text, c: Scalar, b: Text)
    requires forall i :: 0 <= i < |a| ==> WhiteSpace(a[i]) || InAlphabet(a[i])
    requires !WhiteSpace(c) && !InAlphabet(c)
    ensures Decoded(a + [c] + b) == Err(Utf8Char(c)[0])
  {
    DecodesExactlyWhen(a);
    CleanAround(a, c, b);
    EncodeAround(Clean(a), c, Clean(b));
    BadFirstByte(c);
    var front, bytes, back := EncodeUtf8(Clean(a)), Utf8Char(c), EncodeUtf8(Clean(b));
    ValuesAppend(front, bytes[0], bytes[1..] + back);
    FirstOf(front, bytes, back);
  }

  // ---------------------------------------------------------------------------------------------
  // Letters and bytes as one number
  // ---------------------------------------------------------------------------------------------

  /** The number with these digits, the first one the most significant. */
  function BigEndian(digits: seq<nat>, base: nat): nat {
    if digits == [] then 0 else BigEndian(digits[..|digits| - 1], base) * base + digits[|digits| - 1]
  }

  lemma Doubled(x: nat, p: nat, y: nat)
    ensures 2 * (x * p + y) == x * (2 * p) + 2 * y
  {
  }

  lemma ValueNext(b: Bits, bit: bool)
    ensures Value(b + [bit]) == 2 * Value(b) + if bit then 1 else 0
  {
    assert (b + [bit])[..|b|] == b;
  }

  lemma {:induction false} ValueAppend(a: Bits, b: Bits)
    ensures Value(a + b) == Value(a) * Pow2(|b|) + Value(b)
    decreases |b|
  {
    if b == [] {
      assert a + b == a;
    } else {
      var init, last := b[..|b| - 1], b[|b| - 1];
      ValueAppend(a, init);
      assert init + [last] == b && a + init + [last] == a + b;
      ValueNext(init, last);
      ValueNext(a + init, last);
      Doubled(Value(a), Pow2(|init|), Value(init));
    }
  }

  lemma {:induction false} ValueOfSpread(values: seq<nat>, w: nat)
    requires Fit(values, w)
    ensures Value(Spread(values, w)) == BigEndian(values, Pow2(w)) && |Spread(values, w)| == w * |values|
  {
    if values != [] {
      var init, last := values[..|values| - 1], values[|values| - 1];
      ValueOfSpread(init, w);
      SpreadAppend(init, last, w);
      assert init + [last] == values;
      ValueAppend(Spread(init, w), ToBits(last, w));
      ValueOfBits(last, w);
      Plus(w, |init|);
    }
  }

  lemma Plus(w: nat, n: nat)
    ensures w * n + w == w * (n + 1)
  {
  }

  /** Cutting bits into groups keeps their value; the bits left over are the lowest. */
  lemma ValueOfGroups(b: Bits, w: nat)
    requires w > 0
    ensures Value(b) == BigEndian(Groups(b, w), Pow2(w)) * Pow2(|Rest(b, w)|) + Value(Rest(b, w))
    ensures |b| == w * |Groups(b, w)| + |Rest(b, w)|
  {
    SpreadOfGroups(b, w);
    GroupsFit(b, w);
    ValueOfSpread(Groups(b, w), w);
    ValueAppend(Spread(Groups(b, w), w), Rest(b, w));
  }

  /**
   What the decoded bytes are: the letters read as a number in base 32 are the bytes read as a number in base 256,
   followed by fewer than eight bits that are dropped.
   */
  lemma DecodedIsTheNumber(values: seq<nat>) returns (bytes: seq<nat>, dropped: nat)
    requires forall i :: 0 <= i < |values| ==> values[i] < 32
    ensures Decoded(Letters(values)) == Ok(bytes) && forall i :: 0 <= i < |bytes| ==> bytes[i] < 256
    ensures var k := 5 * |values| - 8 * |bytes|;
            && 0 <= k < 8 && dropped < Pow2(k)
            && BigEndian(values, 32) == BigEndian(bytes, 256) * Pow2(k) + dropped
  {
    assert Pow2(2) == 4 && Pow2(5) == 32 && Pow2(4) == 16 && Pow2(8) == 256;
    ValuesOfLetters(values);
    var bits := Spread(values, 5);
    ValueOfSpread(values, 5);
    ValueOfGroups(bits, 8);
    GroupsFit(bits, 8);
    bytes, dropped := Groups(bits, 8), Value(Rest(bits, 8));
  }

  /** The letter of a value and the value of a letter. */
  lemma Alphabet(v: nat, c: nat)
    requires v < 32
    ensures LetterValue(c) == Some(v) <==> c == if v < 26 then 65 + v else 50 + (v - 26)
    ensures Letter(v) == c <==> LetterValue(c) == Some(v)
  {
  }
}
