/** The bounded line encoder of text sinks (core/src/codec/log_output.rs:39-214, core/src/codec/policy.rs:93-103). */
module LogOutput {
  import opened Codec
  import opened Sanitizing
  import opened Unicode
  import opened UnicodeTheorems
  import opened Wrappers

  const MAX_LIMIT: nat := 64 * 1024 * 1024

  datatype TextOutputPolicy = TextOutputPolicy(
    lineEnding: LineEnding, nul: NulPolicy, maxLineBytes: nat, appendNewline: bool)

  datatype TextOutputError =
    | InvalidLimit
    | NulRejected
    | LineTooLong(length: nat, max: nat)
    | Encoding(error: EncodingError)

  datatype EncodedLine = EncodedLine(length: nat, normalized: bool)

  datatype Snapshot = Snapshot(encoding: TextEncoding, allowUtf8Fallback: bool)

  predicate ValidPolicy(policy: TextOutputPolicy) {
    0 < policy.maxLineBytes <= MAX_LIMIT
  }

  /** A failed conversion falls back to UTF-8 where the snapshot permits it. */
  function SnapshotEncode(p: Platform, s: Snapshot, t: Text): Result<Bytes, EncodingError> {
    match Encode(p, t, s.encoding)
    case Ok(bytes) => Ok(bytes)
    case Err(error) => if s.allowUtf8Fallback && s.encoding != Utf8 then Encode(p, t, Utf8) else Err(error)
  }

  predicate EndsInSeparator(t: Text) {
    t != [] && (t[|t| - 1] == LF || t[|t| - 1] == CR)
  }

  /** The separator appended to a line that does not end in one. */
  function Terminator(policy: TextOutputPolicy, t: Text): Text {
    if policy.appendNewline && !EndsInSeparator(t) then Separator(policy.lineEnding) else []
  }

  function Concat(a: Result<Bytes, EncodingError>, b: Result<Bytes, EncodingError>): Result<Bytes, TextOutputError> {
    if a.Err? then Err(Encoding(a.error))
    else if b.Err? then Err(Encoding(b.error))
    else Ok(a.value + b.value)
  }

  /** What becomes of one line: sanitize, encode, terminate, bound. */
  function LineBytes(p: Platform, s: Snapshot, policy: TextOutputPolicy, text: Text): Result<Bytes, TextOutputError> {
    if policy.nul == Reject && NUL in text then Err(NulRejected)
    else
      var clean := Sanitized(text, policy.nul, policy.lineEnding);
      var terminator := Terminator(policy, clean);
      var ending := if terminator == [] then Ok([]) else SnapshotEncode(p, s, terminator);
      var bytes := Concat(SnapshotEncode(p, s, clean), ending);
      if bytes.Ok? && |bytes.value| > policy.maxLineBytes then Err(LineTooLong(|bytes.value|, policy.maxLineBytes))
      else bytes
  }

  function LineResult(p: Platform, s: Snapshot, policy: TextOutputPolicy, text: Text): Result<EncodedLine,
      TextOutputError> {
    match LineBytes(p, s, policy, text)
    case Ok(bytes) => Ok(EncodedLine(|bytes|, Sanitized(text, policy.nul, policy.lineEnding) != text))
    case Err(error) => Err(error)
  }

  class TextOutputEncoder {
    const platform: Platform
    const snapshot: Snapshot
    const policy: TextOutputPolicy
    var buffer: Bytes

    predicate Valid()
      reads this
    {
      ValidPolicy(policy) && |buffer| <= policy.maxLineBytes
    }

    constructor (platform: Platform, snapshot: Snapshot, policy: TextOutputPolicy)
      requires ValidPolicy(policy)
      ensures Valid() && buffer == []
      ensures this.platform == platform && this.snapshot == snapshot && this.policy == policy
    {
      this.platform, this.snapshot, this.policy, buffer := platform, snapshot, policy, [];
    }

    static method New(platform: Platform, snapshot: Snapshot, policy: TextOutputPolicy)
      returns (r: Result<TextOutputEncoder, TextOutputError>)
      ensures r.Ok? <==> ValidPolicy(policy)
      ensures r.Ok? <==> 1 <= policy.maxLineBytes <= 67_108_864
      ensures r.Err? ==> r.error == InvalidLimit
      ensures r.Ok? ==> fresh(r.value) && r.value.Valid() && r.value.buffer == []
      ensures r.Ok? ==> r.value.platform == platform && r.value.snapshot == snapshot && r.value.policy == policy
    {
      if policy.maxLineBytes == 0 || policy.maxLineBytes > 64 * 1024 * 1024 {
        return Err(InvalidLimit);
      }
      var encoder := new TextOutputEncoder(platform, snapshot, policy);
      return Ok(encoder);
    }

    /** Leaves the encoded line in the buffer, or an empty buffer and an error. */
    method Encode(text: Text) returns (r: Result<EncodedLine, TextOutputError>)
      requires Valid()
      modifies this
      ensures Valid()
      ensures r == LineResult(platform, snapshot, policy, text)
      ensures buffer == if r.Ok? then LineBytes(platform, snapshot, policy, text).value else []
    {
      buffer := [];
      var clean := Sanitize(text, policy.nul, policy.lineEnding);
      if clean.None? { return Err(NulRejected); }
      var normalizedText := clean.value;
      var normalized := normalizedText != text;
      var body := SnapshotEncode(platform, snapshot, normalizedText);
      if body.Err? { return Err(Encoding(body.error)); }
      var bytes := body.value;
      if policy.appendNewline && !EndsInSeparator(normalizedText) {
        var newline := if policy.lineEnding == CrLf then [CR, LF] else [LF];
        var tail := SnapshotEncode(platform, snapshot, newline);
        if tail.Err? { return Err(Encoding(tail.error)); }
        bytes := bytes + tail.value;
      } else {
        assert bytes + [] == bytes;
      }
      if |bytes| > policy.maxLineBytes {
        return Err(LineTooLong(|bytes|, policy.maxLineBytes));
      }
      buffer := buffer + bytes;
      return Ok(EncodedLine(|bytes|, normalized));
    }

    /** Appends the line to the caller's bytes, which stay as they are on an error. */
    method EncodeInto(text: Text, output: Bytes) returns (r: Result<EncodedLine, TextOutputError>, extended: Bytes)
      requires Valid()
      modifies this
      ensures Valid()
      ensures r == LineResult(platform, snapshot, policy, text)
      ensures extended == if r.Ok? then output + LineBytes(platform, snapshot, policy, text).value else output
    {
      r := Encode(text);
      if r.Err? { return r, output; }
      extended := output + buffer;
    }

    method Clear()
      requires Valid()
      modifies this
      ensures Valid() && buffer == []
    {
      buffer := [];
    }
  }

  // ---------------------------------------------------------------------------------------------
  // What a line means
  // ---------------------------------------------------------------------------------------------

  lemma EncodeAppend(p: Platform, a: Text, b: Text, e: TextEncoding)
    requires !e.CodePage?
    ensures Codec.Encode(p, a, e).Ok? && Codec.Encode(p, b, e).Ok?
    ensures Codec.Encode(p, a + b, e) == Ok(Codec.Encode(p, a, e).value + Codec.Encode(p, b, e).value)
  {
    Utf8Append(a, b);
    Utf16Append(a, b);
    UnitsAppend(EncodeUtf16(a), EncodeUtf16(b), true);
    UnitsAppend(EncodeUtf16(a), EncodeUtf16(b), false);
  }

  /** The whole text of a line, terminator included. */
  function LineText(policy: TextOutputPolicy, text: Text): Text {
    var clean := Sanitized(text, policy.nul, policy.lineEnding);
    clean + Terminator(policy, clean)
  }

  lemma LineIsEncodedText(p: Platform, s: Snapshot, policy: TextOutputPolicy, text: Text)
    requires !s.encoding.CodePage? && !(policy.nul == Reject && NUL in text)
    ensures Codec.Encode(p, LineText(policy, text), s.encoding).Ok?
    ensures var bytes := Codec.Encode(p, LineText(policy, text), s.encoding).value;
            LineBytes(p, s, policy, text) ==
              if |bytes| > policy.maxLineBytes then Err(LineTooLong(|bytes|, policy.maxLineBytes)) else Ok(bytes)
  {
    var clean := Sanitized(text, policy.nul, policy.lineEnding);
    var terminator := Terminator(policy, clean);
    EncodeAppend(p, clean, terminator, s.encoding);
    if terminator == [] {
      assert clean + terminator == clean;
      var bytes := Codec.Encode(p, clean, s.encoding).value;
      assert bytes + [] == bytes;
    }
  }

  /**
   In a Unicode encoding the bytes of a line decode to its text, which has no NUL and only the separators of
   the policy, and is bounded; it fails exactly on a rejected NUL or an encoding over the limit.
   */
  lemma LineDecodes(p: Platform, s: Snapshot, policy: TextOutputPolicy, text: Text)
    requires !s.encoding.CodePage?
    ensures var line := LineBytes(p, s, policy, text);
            && (line.Ok? ==>
                  && |line.value| <= policy.maxLineBytes
                  && Decode(p, line.value, s.encoding) == Ok(LineText(policy, text))
                  && NUL !in LineText(policy, text)
                  && SeparatorsOk(LineText(policy, text), policy.lineEnding)
                  && (policy.appendNewline ==> EndsInSeparator(LineText(policy, text))))
            && (line.Ok? <==>
                  && !(policy.nul == Reject && NUL in text)
                  && |Codec.Encode(p, LineText(policy, text), s.encoding).value| <= policy.maxLineBytes)
  {
    EncodeAppend(p, LineText(policy, text), [], s.encoding);
    if !(policy.nul == Reject && NUL in text) {
      LineIsEncodedText(p, s, policy, text);
      CodecRoundTrip(p, LineText(policy, text), s.encoding);
      LineTextIsClean(policy, text);
    }
  }

  lemma LineTextIsClean(policy: TextOutputPolicy, text: Text)
    ensures NUL !in LineText(policy, text)
    ensures SeparatorsOk(LineText(policy, text), policy.lineEnding)
    ensures policy.appendNewline ==> EndsInSeparator(LineText(policy, text))
  {
    var clean := Sanitized(text, policy.nul, policy.lineEnding);
    var terminator := Terminator(policy, clean);
    SanitizedSeparators(text, policy.nul, policy.lineEnding);
    if policy.lineEnding == Preserve {
      ReplacedHasNoNul(text, policy.nul);
    } else {
      JoinHasNoNul(Lines(text), policy.nul, policy.lineEnding);
    }
    assert NUL !in terminator;
    if policy.lineEnding == CrLf {
      assert Paired(terminator);
      PairedAppend(clean, terminator);
    }
  }

  /**
   A line is terminated once: its text, with its terminator, is a line that stays as it is. Without appending, it is the
   sanitized text.
   */
  lemma TerminatedOnce(policy: TextOutputPolicy, text: Text)
    ensures LineText(policy, LineText(policy, text)) == LineText(policy, text)
    ensures !policy.appendNewline ==> LineText(policy, text) == Sanitized(text, policy.nul, policy.lineEnding)
    ensures LineText(policy, text)[..|Sanitized(text, policy.nul, policy.lineEnding)|]
         == Sanitized(text, policy.nul, policy.lineEnding)
  {
    LineTextIsClean(policy, text);
    UnchangedExactlyWhen(LineText(policy, text), policy.nul, policy.lineEnding);
    var line := LineText(policy, text);
    assert line + [] == line;
  }

  /** What is reported of a line: its length, and whether anything in it was replaced. */
  lemma LineReported(p: Platform, s: Snapshot, policy: TextOutputPolicy, text: Text)
    ensures var r := LineResult(p, s, policy, text);
            r.Ok? ==>
              && LineBytes(p, s, policy, text).Ok? && r.value.length == |LineBytes(p, s, policy, text).value|
              && 0 <= r.value.length <= policy.maxLineBytes
              && (!r.value.normalized <==> 0 !in text && SeparatorsOk(text, policy.lineEnding))
  {
    UnchangedExactlyWhen(text, policy.nul, policy.lineEnding);
  }

  /**
   A conversion fails only without the fallback, and the fallback is used only where the conversion fails: the bytes are
   those of the snapshot's encoding, or else UTF-8 bytes that decode to the text.
   */
  lemma FallbackOnlyOnFailure(p: Platform, s: Snapshot, t: Text)
    ensures var r, direct := SnapshotEncode(p, s, t), Codec.Encode(p, t, s.encoding);
            && (direct.Ok? ==> r == direct)
            && (direct.Err? && !s.allowUtf8Fallback ==> r == direct)
            && (direct.Err? && s.allowUtf8Fallback ==> r.Ok? && DecodeUtf8(r.value) == Some(t))
  {
    Utf8RoundTrip(t);
  }

  /** With the fallback a line fails for a rejected NUL or its length, but never in the conversion. */
  lemma FallbackNeverFails(p: Platform, s: Snapshot, policy: TextOutputPolicy, text: Text)
    requires s.allowUtf8Fallback
    ensures var line := LineBytes(p, s, policy, text);
            line.Err? ==>
              line.error.NulRejected? || (line.error.LineTooLong? && line.error.length > policy.maxLineBytes)
  {
    var clean := Sanitized(text, policy.nul, policy.lineEnding);
    FallbackOnlyOnFailure(p, s, clean);
    FallbackOnlyOnFailure(p, s, Terminator(policy, clean));
  }
}
