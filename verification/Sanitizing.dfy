/** NUL replacement and line-ending normalization of text output (core/src/codec/log_output.rs:17-37, 216-256). */
module Sanitizing {
  import opened Unicode
  import opened Wrappers

  const NUL: Scalar := 0
  const LF: Scalar := 10
  const CR: Scalar := 13

  /** The visible escape of a NUL: a backslash and the digit zero. */
  const ESCAPED: Text := [92, 48]

  datatype LineEnding = Lf | CrLf | Preserve
  datatype NulPolicy = Escape | Reject | Remove

  // ---------------------------------------------------------------------------------------------
  // What a sanitized text is: the same lines, without NULs, joined by the chosen separator
  // ---------------------------------------------------------------------------------------------

  /** The lines of a text, ended by LF, CR or CRLF. */
  function Lines(t: Text): (lines: seq<Text>)
    ensures lines != []
    decreases |t|
  {
    if t == [] then [[]]
    else if t[0] == LF then [[]] + Lines(t[1..])
    else if t[0] == CR then [[]] + Lines(t[Break(t)..])
    else
      var rest := Lines(t[1..]);
      [[t[0]] + rest[0]] + rest[1..]
  }

  /** The length of the line break a CR begins. */
  function Break(t: Text): (n: nat)
    requires t != []
    ensures 1 <= n <= |t|
  {
    if |t| >= 2 && t[1] == LF then 2 else 1
  }

  function Join(lines: seq<Text>, separator: Text): Text
    requires lines != []
  {
    if |lines| == 1 then lines[0] else lines[0] + separator + Join(lines[1..], separator)
  }

  function Instead(nul: NulPolicy): Text {
    if nul == Escape then ESCAPED else []
  }

  function ReplaceNul(t: Text, nul: NulPolicy): Text {
    if t == [] then []
    else (if t[0] == NUL then Instead(nul) else [t[0]]) + ReplaceNul(t[1..], nul)
  }

  function Each(lines: seq<Text>, nul: NulPolicy): (r: seq<Text>)
    ensures |r| == |lines|
  {
    if lines == [] then [] else [ReplaceNul(lines[0], nul)] + Each(lines[1..], nul)
  }

  function Separator(ending: LineEnding): Text {
    if ending == CrLf then [CR, LF] else [LF]
  }

  function Sanitized(t: Text, nul: NulPolicy, ending: LineEnding): Text {
    if ending == Preserve then ReplaceNul(t, nul) else Join(Each(Lines(t), nul), Separator(ending))
  }

  // ---------------------------------------------------------------------------------------------
  // The loops
  // ---------------------------------------------------------------------------------------------

  /** What the first loop has still to emit for the rest of the text. */
  function Pass(t: Text, nul: NulPolicy, ending: LineEnding): Text
    decreases |t|
  {
    if t == [] then []
    else if t[0] == NUL then Instead(nul) + Pass(t[1..], nul, ending)
    else if ending != Preserve && t[0] == CR then [LF] + Pass(t[Break(t)..], nul, ending)
    else [t[0]] + Pass(t[1..], nul, ending)
  }

  /** The second loop: a CR before every LF. */
  function Expand(t: Text): Text {
    if t == [] then []
    else Expand(t[..|t| - 1]) + (if t[|t| - 1] == LF then [CR, LF] else [t[|t| - 1]])
  }

  /** The text emitted so far and the rest of the input make up the whole result. */
  ghost predicate Emitted(t: Text, nul: NulPolicy, ending: LineEnding, output: Text, i: nat) {
    i <= |t| && Pass(t, nul, ending) == output + Pass(t[i..], nul, ending)
  }

  lemma EmitNext(t: Text, nul: NulPolicy, ending: LineEnding, output: Text, i: nat, emitted: Text, next: nat)
    requires Emitted(t, nul, ending, output, i) && i < next <= |t|
    requires Pass(t[i..], nul, ending) == emitted + Pass(t[next..], nul, ending)
    ensures Emitted(t, nul, ending, output + emitted, next)
  {
    assert output + (emitted + Pass(t[next..], nul, ending)) == output + emitted + Pass(t[next..], nul, ending);
  }

  lemma PassNext(t: Text, nul: NulPolicy, ending: LineEnding, i: nat)
    requires i < |t|
    ensures t[i] == NUL ==> Pass(t[i..], nul, ending) == Instead(nul) + Pass(t[i + 1..], nul, ending)
    ensures t[i] == CR && ending != Preserve ==>
              var next := if i + 1 < |t| && t[i + 1] == LF then i + 2 else i + 1;
              Pass(t[i..], nul, ending) == [LF] + Pass(t[next..], nul, ending)
    ensures t[i] != NUL && (t[i] != CR || ending == Preserve) ==>
              Pass(t[i..], nul, ending) == [t[i]] + Pass(t[i + 1..], nul, ending)
  {
    assert t[i..][1..] == t[i + 1..];
    assert i + 1 < |t| ==> t[i..][2..] == t[i + 2..];
  }

  /** Whether the first loop emits something else for this character. */
  predicate Replaced(c: Scalar, ending: LineEnding) {
    c == NUL || (ending != Preserve && c == CR)
  }

  lemma EmitInstead(t: Text, nul: NulPolicy, ending: LineEnding, output: Text, i: nat)
    requires Emitted(t, nul, ending, output, i) && i < |t| && t[i] == NUL
    ensures Emitted(t, nul, ending, output + Instead(nul), i + 1)
  {
    PassNext(t, nul, ending, i);
    EmitNext(t, nul, ending, output, i, Instead(nul), i + 1);
  }

  lemma EmitBreak(t: Text, nul: NulPolicy, ending: LineEnding, output: Text, i: nat, next: nat)
    requires Emitted(t, nul, ending, output, i) && i < |t| && t[i] == CR && ending != Preserve
    requires next == if i + 1 < |t| && t[i + 1] == LF then i + 2 else i + 1
    ensures Emitted(t, nul, ending, output + [LF], next)
  {
    PassNext(t, nul, ending, i);
    EmitNext(t, nul, ending, output, i, [LF], next);
  }

  lemma EmitCharacter(t: Text, nul: NulPolicy, ending: LineEnding, output: Text, i: nat)
    requires Emitted(t, nul, ending, output, i) && i < |t| && !Replaced(t[i], ending)
    ensures Emitted(t, nul, ending, output + [t[i]], i + 1)
  {
    PassNext(t, nul, ending, i);
    EmitNext(t, nul, ending, output, i, [t[i]], i + 1);
  }

  lemma {:induction false} PassUntouched(t: Text, nul: NulPolicy, ending: LineEnding)
    requires forall k :: 0 <= k < |t| ==> !Replaced(t[k], ending)
    ensures Pass(t, nul, ending) == t
  {
    if t != [] { PassUntouched(t[1..], nul, ending); }
  }

  /** The character pass: replaces NULs and lone or paired CRs; `normalized` tells whether it met one. */
  method ReplacePass(t: Text, nul: NulPolicy, ending: LineEnding) returns (r: Option<Text>, normalized: bool)
    ensures r.None? <==> nul == Reject && NUL in t
    ensures r.Some? ==> r.value == Pass(t, nul, ending)
    ensures r.Some? && !normalized ==> r.value == t
  {
    var output: Text := [];
    normalized := false;
    var i := 0;
    while i < |t|
      invariant Emitted(t, nul, ending, output, i)
      invariant nul == Reject ==> forall k :: 0 <= k < i ==> t[k] != NUL
      invariant !normalized ==> forall k :: 0 <= k < i ==> !Replaced(t[k], ending)
    {
      if t[i] == NUL {
        normalized := true;
        if nul == Reject { return None, true; }
        EmitInstead(t, nul, ending, output, i);
        output := output + Instead(nul);
        i := i + 1;
        continue;
      }
      if (ending == Lf || ending == CrLf) && t[i] == CR {
        normalized := true;
        var next := i + 1;
        if next < |t| && t[next] == LF {
          next := next + 1;
        }
        EmitBreak(t, nul, ending, output, i, next);
        output := output + [LF];
        i := next;
        continue;
      }
      EmitCharacter(t, nul, ending, output, i);
      output := output + [t[i]];
      i := i + 1;
    }
    assert output + [] == output;
    if !normalized { PassUntouched(t, nul, ending); }
    return Some(output), normalized;
  }

  /** The text a sink receives, or `None` if a NUL is rejected. */
  method Sanitize(text: Text, nul: NulPolicy, ending: LineEnding) returns (r: Option<Text>)
    ensures r == if nul == Reject && NUL in text then None else Some(Sanitized(text, nul, ending))
  {
    var output, normalized := ReplacePass(text, nul, ending);
    if output.None? { return None; }
    var result := output.value;
    if ending == CrLf {
      var crlf: Text := [];
      for i := 0 to |result|
        invariant crlf == Expand(result[..i])
      {
        assert result[..i + 1][..i] == result[..i];
        if result[i] == LF {
          crlf := crlf + [CR];
        }
        crlf := crlf + [result[i]];
      }
      assert result[..|result|] == result;
      result := crlf;
      normalized := true;
    }
    LoopsSanitize(text, nul, ending);
    return Some(if normalized then result else text);
  }

  // The loops compute the joined lines

  lemma {:induction false} PassPreserves(t: Text, nul: NulPolicy)
    ensures Pass(t, nul, Preserve) == ReplaceNul(t, nul)
  {
    if t != [] { PassPreserves(t[1..], nul); }
  }

  lemma JoinFront(front: Text, lines: seq<Text>, separator: Text)
    requires lines != []
    ensures Join([front + lines[0]] + lines[1..], separator) == front + Join(lines, separator)
  {
    var longer := [front + lines[0]] + lines[1..];
    assert longer[1..] == lines[1..];
    if |lines| > 1 {
      var rest := Join(lines[1..], separator);
      assert front + lines[0] + separator + rest == front + (lines[0] + separator + rest);
    }
  }

  lemma {:induction false} PassJoins(t: Text, nul: NulPolicy, ending: LineEnding)
    requires ending != Preserve
    ensures Pass(t, nul, ending) == Join(Each(Lines(t), nul), [LF])
    decreases |t|
  {
    if t == [] {
      assert Each([[]], nul) == [ReplaceNul([], nul)] + Each([[]][1..], nul);
    } else if t[0] == LF || t[0] == CR {
      var rest := t[if t[0] == LF then 1 else Break(t)..];
      PassJoins(rest, nul, ending);
      EmptyLine(Lines(rest), nul);
    } else {
      PassJoins(t[1..], nul, ending);
      LongerLine(t[0], Lines(t[1..]), nul);
    }
  }

  lemma EmptyLine(lines: seq<Text>, nul: NulPolicy)
    requires lines != []
    ensures Join(Each([[]] + lines, nul), [LF]) == [LF] + Join(Each(lines, nul), [LF])
  {
    assert ([[]] + lines)[1..] == lines;
    var each := Each([[]] + lines, nul);
    assert each[0] == [] && each[1..] == Each(lines, nul);
    assert [] + [LF] + Join(Each(lines, nul), [LF]) == [LF] + Join(Each(lines, nul), [LF]);
  }

  lemma LongerLine(c: Scalar, lines: seq<Text>, nul: NulPolicy)
    requires lines != []
    ensures Join(Each([[c] + lines[0]] + lines[1..], nul), [LF])
         == (if c == NUL then Instead(nul) else [c]) + Join(Each(lines, nul), [LF])
  {
    var front := if c == NUL then Instead(nul) else [c];
    var longer := [[c] + lines[0]] + lines[1..];
    assert ([c] + lines[0])[1..] == lines[0] && longer[1..] == lines[1..];
    assert ReplaceNul([c] + lines[0], nul) == front + ReplaceNul(lines[0], nul);
    assert Each(longer, nul) == [front + Each(lines, nul)[0]] + Each(lines, nul)[1..];
    JoinFront(front, Each(lines, nul), [LF]);
  }

  /** A line without separators. */
  predicate Plain(line: Text) {
    forall i :: 0 <= i < |line| ==> line[i] != CR && line[i] != LF
  }

  predicate AllPlain(lines: seq<Text>) {
    forall k :: 0 <= k < |lines| ==> Plain(lines[k])
  }

  lemma {:induction false} LinesPlain(t: Text)
    ensures AllPlain(Lines(t))
    decreases |t|
  {
    if t != [] {
      LinesPlain(t[if t[0] == CR then Break(t) else 1..]);
    }
  }

  lemma {:induction false} ReplacedPlain(line: Text, nul: NulPolicy)
    requires Plain(line)
    ensures Plain(ReplaceNul(line, nul))
  {
    if line != [] { ReplacedPlain(line[1..], nul); }
  }

  lemma {:induction false} EachPlain(lines: seq<Text>, nul: NulPolicy)
    requires AllPlain(lines)
    ensures AllPlain(Each(lines, nul))
  {
    if lines != [] {
      ReplacedPlain(lines[0], nul);
      EachPlain(lines[1..], nul);
    }
  }

  lemma {:induction false} ExpandAppend(a: Text, b: Text)
    ensures Expand(a + b) == Expand(a) + Expand(b)
    decreases |b|
  {
    if b == [] {
      assert a + b == a;
    } else {
      var last := |b| - 1;
      assert (a + b)[..|a + b| - 1] == a + b[..last];
      ExpandAppend(a, b[..last]);
    }
  }

  lemma {:induction false} ExpandPlain(line: Text)
    requires Plain(line)
    ensures Expand(line) == line
  {
    if line != [] { ExpandPlain(line[..|line| - 1]); }
  }

  lemma {:induction false} ExpandJoin(lines: seq<Text>)
    requires lines != [] && AllPlain(lines)
    ensures Expand(Join(lines, [LF])) == Join(lines, [CR, LF])
  {
    ExpandPlain(lines[0]);
    if |lines| > 1 {
      var rest := Join(lines[1..], [LF]);
      ExpandJoin(lines[1..]);
      ExpandAppend(lines[0] + [LF], rest);
      ExpandAppend(lines[0], [LF]);
      assert Expand([LF]) == Expand([LF][..0]) + [CR, LF];
    }
  }

  lemma LoopsSanitize(t: Text, nul: NulPolicy, ending: LineEnding)
    ensures Sanitized(t, nul, ending) == if ending == CrLf then Expand(Pass(t, nul, ending)) else Pass(t, nul, ending)
  {
    if ending == Preserve {
      PassPreserves(t, nul);
    } else {
      PassJoins(t, nul, ending);
      LinesPlain(t);
      EachPlain(Lines(t), nul);
      ExpandJoin(Each(Lines(t), nul));
    }
  }

  // ---------------------------------------------------------------------------------------------
  // Normal forms
  // ---------------------------------------------------------------------------------------------

  predicate Normalizing(ending: LineEnding) {
    ending == Lf || ending == CrLf
  }

  lemma {:induction false} LinesFront(line: Text, rest: Text)
    requires Plain(line)
    ensures Lines(line + rest) == [line + Lines(rest)[0]] + Lines(rest)[1..]
  {
    if line == [] {
      assert line + rest == rest && line + Lines(rest)[0] == Lines(rest)[0];
    } else {
      assert (line + rest)[1..] == line[1..] + rest && (line + rest)[0] == line[0];
      LinesFront(line[1..], rest);
      assert [line[0]] + (line[1..] + Lines(rest)[0]) == line + Lines(rest)[0];
    }
  }

  lemma BehindSeparator(rest: Text, ending: LineEnding)
    ensures Lines(Separator(ending) + rest) == [[]] + Lines(rest)
  {
    var separator := Separator(ending);
    assert (separator + rest)[|separator|..] == rest;
  }

  lemma FrontLine(line: Text, rest: Text, ending: LineEnding)
    requires Plain(line)
    ensures Lines(line + Separator(ending) + rest) == [line] + Lines(rest)
  {
    var separator := Separator(ending);
    BehindSeparator(rest, ending);
    LinesFront(line, separator + rest);
    assert line + separator + rest == line + (separator + rest) && line + [] == line;
  }

  /** Joining plain lines and splitting again gives the lines back. */
  lemma {:induction false} LinesOfJoin(lines: seq<Text>, ending: LineEnding)
    requires lines != [] && AllPlain(lines)
    ensures Lines(Join(lines, Separator(ending))) == lines
  {
    var separator := Separator(ending);
    if |lines| == 1 {
      LinesFront(lines[0], []);
      assert lines[0] + [] == lines[0];
    } else {
      LinesOfJoin(lines[1..], ending);
      FrontLine(lines[0], Join(lines[1..], separator), ending);
    }
  }

  /** Sanitizing keeps the line structure: the same lines in the same order, each with its NULs replaced. */
  lemma LinesKept(t: Text, nul: NulPolicy, ending: LineEnding)
    requires Normalizing(ending)
    ensures Lines(Sanitized(t, nul, ending)) == Each(Lines(t), nul)
  {
    LinesPlain(t);
    EachPlain(Lines(t), nul);
    LinesOfJoin(Each(Lines(t), nul), ending);
  }

  lemma ReplaceBehind(c: Scalar, rest: Text, nul: NulPolicy)
    requires c != NUL
    ensures ReplaceNul([c] + rest, nul) == [c] + ReplaceNul(rest, nul)
  {
    assert ([c] + rest)[1..] == rest;
  }

  /** What stands for a NUL has none itself. */
  lemma ReplaceBehindInstead(rest: Text, nul: NulPolicy)
    ensures ReplaceNul(Instead(nul) + rest, nul) == Instead(nul) + ReplaceNul(rest, nul)
  {
    if nul == Escape {
      ReplaceBehind(ESCAPED[0], [ESCAPED[1]] + rest, nul);
      ReplaceBehind(ESCAPED[1], rest, nul);
      assert ESCAPED + rest == [ESCAPED[0]] + ([ESCAPED[1]] + rest);
    } else {
      assert Instead(nul) + rest == rest;
    }
  }

  lemma {:induction false} ReplaceTwice(line: Text, nul: NulPolicy)
    ensures ReplaceNul(ReplaceNul(line, nul), nul) == ReplaceNul(line, nul)
  {
    if line != [] {
      ReplaceTwice(line[1..], nul);
      if line[0] == NUL {
        ReplaceBehindInstead(ReplaceNul(line[1..], nul), nul);
      } else {
        ReplaceBehind(line[0], ReplaceNul(line[1..], nul), nul);
      }
    }
  }

  lemma {:induction false} EachTwice(lines: seq<Text>, nul: NulPolicy)
    ensures Each(Each(lines, nul), nul) == Each(lines, nul)
  {
    if lines != [] {
      ReplaceTwice(lines[0], nul);
      EachTwice(lines[1..], nul);
      assert Each(lines, nul)[1..] == Each(lines[1..], nul);
    }
  }

  /**
   Sanitizing is idempotent, and the last line ending wins: LF after CRLF equals LF alone, and the other way round.
   */
  lemma LastEndingWins(t: Text, nul: NulPolicy, first: LineEnding, second: LineEnding)
    requires (Normalizing(first) && Normalizing(second)) || first == second
    ensures Sanitized(Sanitized(t, nul, first), nul, second) == Sanitized(t, nul, second)
  {
    if first == Preserve {
      ReplaceTwice(t, nul);
    } else {
      LinesKept(t, nul, first);
      EachTwice(Lines(t), nul);
    }
  }

  /** Every LF follows a CR and every CR precedes an LF. */
  predicate Paired(t: Text) {
    && (forall i :: 0 <= i < |t| && t[i] == LF ==> i > 0 && t[i - 1] == CR)
    && (forall i :: 0 <= i < |t| && t[i] == CR ==> i + 1 < |t| && t[i + 1] == LF)
  }

  lemma PairedAppend(a: Text, b: Text)
    requires Paired(a) && Paired(b)
    ensures Paired(a + b)
  {
  }

  lemma {:induction false} JoinPaired(lines: seq<Text>)
    requires lines != [] && AllPlain(lines)
    ensures Paired(Join(lines, [CR, LF]))
  {
    assert Paired(lines[0]);
    if |lines| > 1 {
      JoinPaired(lines[1..]);
      PairedAppend(lines[0], [CR, LF]);
      PairedAppend(lines[0] + [CR, LF], Join(lines[1..], [CR, LF]));
    }
  }

  lemma {:induction false} JoinWithoutCr(lines: seq<Text>)
    requires lines != [] && AllPlain(lines)
    ensures CR !in Join(lines, [LF])
  {
    if |lines| > 1 { JoinWithoutCr(lines[1..]); }
  }

  /** The separators of a text are those the policy allows. */
  predicate SeparatorsOk(t: Text, ending: LineEnding) {
    match ending
    case Lf => CR !in t
    case CrLf => Paired(t)
    case Preserve => true
  }

  lemma SanitizedSeparators(t: Text, nul: NulPolicy, ending: LineEnding)
    ensures SeparatorsOk(Sanitized(t, nul, ending), ending)
  {
    if ending != Preserve {
      LinesPlain(t);
      EachPlain(Lines(t), nul);
      JoinPaired(Each(Lines(t), nul));
      JoinWithoutCr(Each(Lines(t), nul));
    }
  }

  lemma {:induction false} ReplacedHasNoNul(t: Text, nul: NulPolicy)
    ensures NUL !in ReplaceNul(t, nul)
    ensures NUL !in t ==> ReplaceNul(t, nul) == t
  {
    if t != [] { ReplacedHasNoNul(t[1..], nul); }
  }

  lemma {:induction false} JoinHasNoNul(lines: seq<Text>, nul: NulPolicy, ending: LineEnding)
    requires lines != []
    ensures NUL !in Join(Each(lines, nul), Separator(ending))
  {
    ReplacedHasNoNul(lines[0], nul);
    if |lines| > 1 {
      JoinHasNoNul(lines[1..], nul, ending);
      assert Each(lines, nul)[1..] == Each(lines[1..], nul);
    }
  }

  lemma PairedTail(t: Text)
    requires t != [] && Paired(t)
    ensures t[0] == CR ==> Break(t) == 2 && Paired(t[2..])
    ensures t[0] != CR ==> t[0] != LF && Paired(t[1..])
  {
    if t[0] == CR {
      assert t[1] == LF;
      forall i | 0 <= i < |t[2..]| && t[2..][i] == LF ensures i > 0 && t[2..][i - 1] == CR {
        assert t[i + 2] == LF;
      }
    }
  }

  lemma {:induction false} CleanIsJoined(t: Text, nul: NulPolicy, ending: LineEnding)
    requires NUL !in t && SeparatorsOk(t, ending) && Normalizing(ending)
    ensures Join(Each(Lines(t), nul), Separator(ending)) == t
    decreases |t|
  {
    if t == [] {
      assert Each([[]], nul) == [ReplaceNul([], nul)] + Each([[]][1..], nul);
    } else {
      if ending == CrLf { PairedTail(t); }
      var n := if t[0] == CR then 2 else 1;
      CleanIsJoined(t[n..], nul, ending);
      CleanFront(t, nul, ending, n);
    }
  }

  lemma CleanFront(t: Text, nul: NulPolicy, ending: LineEnding, n: nat)
    requires t != [] && NUL !in t && Normalizing(ending) && n <= |t|
    requires if ending == CrLf then t[0] != LF && (t[0] == CR ==> Break(t) == 2) else t[0] != CR
    requires n == if t[0] == CR then 2 else 1
    ensures Join(Each(Lines(t), nul), Separator(ending)) == t[..n] + Join(Each(Lines(t[n..]), nul), Separator(ending))
  {
    var rest := Lines(t[n..]);
    var each := Each(rest, nul);
    if t[0] == CR || t[0] == LF {
      assert ([[]] + rest)[1..] == rest;
      assert Each(Lines(t), nul)[0] == [] && Each(Lines(t), nul)[1..] == each;
      assert t[..n] == Separator(ending);
      assert [] + Separator(ending) + Join(each, Separator(ending)) == t[..n] + Join(each, Separator(ending));
    } else {
      var longer := [[t[0]] + rest[0]] + rest[1..];
      assert ([t[0]] + rest[0])[1..] == rest[0] && longer[1..] == rest[1..];
      assert t[0] in t && t[..1] == [t[0]];
      assert Each(longer, nul) == [[t[0]] + each[0]] + each[1..];
      JoinFront([t[0]], each, Separator(ending));
    }
  }

  /** A text is left alone exactly when it has no NUL and only the separators the policy allows. */
  lemma UnchangedExactlyWhen(t: Text, nul: NulPolicy, ending: LineEnding)
    ensures Sanitized(t, nul, ending) == t <==> NUL !in t && SeparatorsOk(t, ending)
  {
    SanitizedSeparators(t, nul, ending);
    if ending == Preserve {
      ReplacedHasNoNul(t, nul);
    } else {
      JoinHasNoNul(Lines(t), nul, ending);
      if NUL !in t && SeparatorsOk(t, ending) {
        CleanIsJoined(t, nul, ending);
      }
    }
  }

  // ---------------------------------------------------------------------------------------------
  // Character by character
  // ---------------------------------------------------------------------------------------------

  lemma {:induction false} ReplaceAppend(a: Text, b: Text, nul: NulPolicy)
    ensures ReplaceNul(a + b, nul) == ReplaceNul(a, nul) + ReplaceNul(b, nul)
  {
    if a == [] {
      assert a + b == b;
    } else {
      assert (a + b)[1..] == a[1..] + b;
      ReplaceAppend(a[1..], b, nul);
    }
  }

  /**
   Without normalization each character is treated by itself: U+0000 becomes a backslash and the digit zero, or nothing,
   and any other stays.
   */
  lemma NulByNul(a: Text, b: Text, c: Scalar, nul: NulPolicy)
    ensures Sanitized(a + b, nul, Preserve) == Sanitized(a, nul, Preserve) + Sanitized(b, nul, Preserve)
    ensures Sanitized([0], Escape, Preserve) == [92, 48] && Sanitized([0], Remove, Preserve) == []
    ensures c != 0 ==> Sanitized([c], nul, Preserve) == [c]
  {
    ReplaceAppend(a, b, nul);
    assert ReplaceNul([c], nul) == (if c == 0 then Instead(nul) else [c]) + ReplaceNul([], nul);
    assert ReplaceNul([0], Escape) == [92, 48] + ReplaceNul([], Escape);
    assert ReplaceNul([0], Remove) == [] + ReplaceNul([], Remove);
  }

  lemma BehindBreak(end: Text, rest: Text)
    requires end == [10] || end == [13, 10] || (end == [13] && (rest == [] || rest[0] != 10))
    ensures Lines(end + rest) == [[]] + Lines(rest)
  {
    var t := end + rest;
    if end == [10] {
      assert t[1..] == rest;
    } else {
      assert t[0] == 13 && Break(t) == |end| && t[|end|..] == rest;
    }
  }

  /**
   With normalization a line keeps its characters, but for its NULs; LF, CR LF and a CR without LF behind it become the
   chosen separator; and what is behind is treated the same way.
   */
  lemma LineByLine(line: Text, end: Text, rest: Text, nul: NulPolicy, ending: LineEnding)
    requires ending != Preserve && 10 !in line && 13 !in line
    requires end == [10] || end == [13, 10] || (end == [13] && (rest == [] || rest[0] != 10))
    ensures Sanitized(line + end + rest, nul, ending)
         == Sanitized(line, nul, Preserve) + (if ending == CrLf then [13, 10] else [10]) + Sanitized(rest, nul, ending)
    ensures Sanitized(line, nul, ending) == Sanitized(line, nul, Preserve)
  {
    BehindBreak(end, rest);
    LinesFront(line, end + rest);
    assert line + end + rest == line + (end + rest) && line + [] == line;
    LinesFront(line, []);
    assert Lines(line + end + rest) == [line] + Lines(rest);
    FirstLine(line, Lines(rest), nul, ending);
  }

  lemma FirstLine(line: Text, lines: seq<Text>, nul: NulPolicy, ending: LineEnding)
    requires lines != []
    ensures Join(Each([line] + lines, nul), Separator(ending))
         == ReplaceNul(line, nul) + Separator(ending) + Join(Each(lines, nul), Separator(ending))
    ensures Join(Each([line], nul), Separator(ending)) == ReplaceNul(line, nul)
  {
    assert ([line] + lines)[1..] == lines;
    assert Each([line] + lines, nul)[1..] == Each(lines, nul);
  }
}
