/** The SSH identification exchange and the stream that hides it (src/ssh/identification.rs). */
module Identification {
  import opened Basics
  import opened ByteStreams
  import opened Utf8

  const MAX_LINE_BYTES := 255
  const MAX_PREAMBLE_LINES := 20
  const READ_BYTES := 256
  const NEWLINE: Byte := 10
  const CARRIAGE_RETURN: Byte := 13
  const SPACE: Byte := 32

  // ------------------------------------------------------------ classification

  const SSH2: seq<Byte> := [83, 83, 72, 45, 50, 46, 48, 45]           // "SSH-2.0-"
  const SSH199: seq<Byte> := [83, 83, 72, 45, 49, 46, 57, 57, 45]     // "SSH-1.99-"
  const ROSSSH: seq<Byte> := [82, 79, 83, 83, 83, 72]

  /** The part of `s` before its first space. */
  function Token(s: seq<Byte>): seq<Byte> {
    if s == [] || s[0] == SPACE then [] else [s[0]] + Token(s[1..])
  }

  function Classify(line: seq<Byte>): Option<Platform> {
    if !ValidUtf8(line) then None
    else if SSH2 <= line then Some(if Token(line[|SSH2|..]) == ROSSSH then Routeros else Posix)
    else if SSH199 <= line then Some(if Token(line[|SSH199|..]) == ROSSSH then Routeros else Posix)
    else None
  }

  lemma {:induction false} TokenMeaning(s: seq<Byte>, t: seq<Byte>)
    requires forall i :: 0 <= i < |t| ==> t[i] != SPACE
    ensures Token(s) == t <==> s == t || t + [SPACE] <= s
  {
    if s != [] && s[0] != SPACE && t != [] {
      TokenMeaning(s[1..], t[1..]);
      assert s == [s[0]] + s[1..] && t == [t[0]] + t[1..];
      assert t[0] == s[0] ==> (t + [SPACE] <= s <==> t[1..] + [SPACE] <= s[1..]);
    }
  }

  /** A line identifies RouterOS exactly when its whole software token is the RouterOS one, comments aside. */
  lemma ClassifyMeaning(line: seq<Byte>)
    ensures Classify(line).Some? <==> ValidUtf8(line) && (SSH2 <= line || SSH199 <= line)
    ensures Classify(line) == Some(Routeros) <==>
              && ValidUtf8(line)
              && (|| line == SSH2 + ROSSSH || SSH2 + ROSSSH + [SPACE] <= line
                  || line == SSH199 + ROSSSH || SSH199 + ROSSSH + [SPACE] <= line)
  {
    PrefixedToken(SSH2, line);
    PrefixedToken(SSH199, line);
    assert SSH2[4] != SSH199[4];
    assert (SSH199 + ROSSSH)[4] == SSH199[4] && (SSH2 + ROSSSH)[4] == SSH2[4];
  }

  lemma PrefixedToken(prefix: seq<Byte>, line: seq<Byte>)
    ensures prefix <= line ==>
              (Token(line[|prefix|..]) == ROSSSH <==> line == prefix + ROSSSH || prefix + ROSSSH + [SPACE] <= line)
    ensures line == prefix + ROSSSH || prefix + ROSSSH + [SPACE] <= line ==> prefix <= line
  {
    if prefix <= line {
      var rest := line[|prefix|..];
      assert line == prefix + rest;
      TokenMeaning(rest, ROSSSH);
      assert prefix + ROSSSH + [SPACE] == prefix + (ROSSSH + [SPACE]);
      assert ROSSSH + [SPACE] <= rest <==> prefix + (ROSSSH + [SPACE]) <= line;
    }
  }

  // -------------------------------------------------------------- one-pass scan

  datatype Verdict = Identified(platform: Platform) | LineTooLong | TooManyLines | EndedEarly

  /** Position of the first line feed behind position `start`; the length if there is none. */
  function LineEnd(s: seq<Byte>, start: nat): (k: nat)
    requires start <= |s|
    ensures start <= k <= |s|
    ensures k < |s| ==> start + 1 <= k && s[k] == NEWLINE
  {
    LineEndFrom(s, start + 1)
  }

  function LineEndFrom(s: seq<Byte>, i: nat): (k: nat)
    ensures k <= |s| && (i <= |s| ==> i <= k)
    ensures k < |s| ==> i <= k && s[k] == NEWLINE
    decreases |s| - i
  {
    if i >= |s| then |s|
    else if s[i] == NEWLINE then i
    else LineEndFrom(s, i + 1)
  }

  ghost predicate NoFeed(s: seq<Byte>, from: nat, to: nat) {
    forall i :: from <= i < to && i < |s| ==> s[i] != NEWLINE
  }

  lemma {:induction false} FirstFeed(s: seq<Byte>, i: nat)
    ensures NoFeed(s, i, LineEndFrom(s, i))
    decreases |s| - i
  {
    if i < |s| && s[i] != NEWLINE {
      FirstFeed(s, i + 1);
    }
  }

  /** The text of the line from `start` to its line feed at `k`, without a carriage return in front of that. */
  function LineText(s: seq<Byte>, start: nat, k: nat): seq<Byte>
    requires start <= k <= |s|
  {
    var end := if start < k && s[k - 1] == CARRIAGE_RETURN then k - 1 else k;
    seq(end - start, i requires 0 <= i < end - start => s[start + i])
  }

  /** How a complete line is read; the scanner itself works for any reading. */
  type Classifier = seq<Byte> -> Option<Platform>

  datatype Decision = Final(verdict: Verdict) | NextLine(length: nat) | NeedMore

  /** What the bytes seen so far decide about the line that begins at `start`. */
  function Decide(classify: Classifier, s: seq<Byte>, start: nat, lines: nat): (d: Decision)
    requires start <= |s|
    ensures d.NextLine? ==> 2 <= d.length <= |s| - start && d.length <= MAX_LINE_BYTES && lines < MAX_PREAMBLE_LINES
    ensures d.NeedMore? ==> |s| - start < MAX_LINE_BYTES
  {
    var k := LineEnd(s, start);
    if k == |s| then
      if |s| - start >= MAX_LINE_BYTES then Final(LineTooLong) else NeedMore
    else if k + 1 - start > MAX_LINE_BYTES then Final(LineTooLong)
    else
      var platform := classify(LineText(s, start, k));
      if platform.Some? then Final(Identified(platform.value))
      else if lines + 1 > MAX_PREAMBLE_LINES then Final(TooManyLines)
      else NextLine(k + 1 - start)
  }

  /** One decision after another, until one is final or more bytes would be needed. */
  function Follow(decide: (nat, nat) -> Decision, size: nat, start: nat, lines: nat): Verdict
    decreases size - start
  {
    match decide(start, lines)
    case Final(verdict) => verdict
    case NextLine(n) => if 0 < n && start + n <= size then Follow(decide, size, start + n, lines + 1) else EndedEarly
    case NeedMore => EndedEarly
  }

  function DecideOn(classify: Classifier, stream: seq<Byte>): (nat, nat) -> Decision {
    (start: nat, lines: nat) => if start <= |stream| then Decide(classify, stream, start, lines) else NeedMore
  }

  /** What the peer's whole byte stream says, read line by line from `start`. */
  function Scan(classify: Classifier, stream: seq<Byte>, start: nat, lines: nat): Verdict {
    Follow(DecideOn(classify, stream), |stream|, start, lines)
  }

  /** A line end seen in a prefix of the stream is the line end in the whole stream. */
  lemma LineEndOfPrefix(seen: seq<Byte>, all: seq<Byte>, start: nat)
    requires seen <= all && start <= |seen|
    ensures LineEnd(seen, start) < |seen| ==> LineEnd(all, start) == LineEnd(seen, start)
    ensures LineEnd(seen, start) == |seen| ==> LineEnd(all, start) >= |seen|
  {
    var k, n := LineEnd(seen, start), LineEnd(all, start);
    FirstFeed(seen, start + 1);
    FirstFeed(all, start + 1);
    assert k < |seen| ==> all[k] == seen[k];
    assert n < |seen| ==> seen[n] == all[n];
  }

  // ------------------------------------------------------------- what the scan finds

  /** The bytes from `start` begin with one complete line of this length, its line feed included. */
  ghost predicate LineAt(stream: seq<Byte>, start: nat, length: nat) {
    && start + length <= |stream| && 2 <= length <= MAX_LINE_BYTES
    && stream[start + length - 1] == NEWLINE
    && NoFeed(stream, start + 1, start + length - 1)
  }

  /** Lines of these lengths follow each other; all but the last read as nothing, and the last one as p. */
  ghost predicate LinesRead(
    line: (nat, nat) -> bool, read: (nat, nat) -> Option<Platform>, start: nat, lengths: seq<nat>, p: Platform)
    decreases |lengths|
  {
    && lengths != [] && line(start, lengths[0])
    && if |lengths| == 1 then read(start, lengths[0]) == Some(p)
       else read(start, lengths[0]).None? && LinesRead(line, read, start + lengths[0], lengths[1..], p)
  }

  ghost function LineOn(stream: seq<Byte>): (nat, nat) -> bool {
    (start: nat, length: nat) => LineAt(stream, start, length)
  }

  ghost function ReadOn(classify: Classifier, stream: seq<Byte>): (nat, nat) -> Option<Platform> {
    (start: nat, length: nat) =>
      if LineAt(stream, start, length) then classify(LineText(stream, start, start + length - 1)) else None
  }

  /** Complete lines of these lengths begin the stream; all but the last identify nothing, and the last one p. */
  ghost predicate Announces(classify: Classifier, stream: seq<Byte>, lengths: seq<nat>, p: Platform) {
    LinesRead(LineOn(stream), ReadOn(classify, stream), 0, lengths, p)
  }

  lemma LineEndIs(s: seq<Byte>, start: nat, k: nat)
    requires start < k < |s| && s[k] == NEWLINE && NoFeed(s, start + 1, k)
    ensures LineEnd(s, start) == k
  {
    FirstFeed(s, start + 1);
  }

  lemma DecideOnLine(classify: Classifier, stream: seq<Byte>, start: nat, lines: nat, length: nat)
    requires LineAt(stream, start, length)
    ensures
      var platform := classify(LineText(stream, start, start + length - 1));
      Decide(classify, stream, start, lines) ==
        if platform.Some? then Final(Identified(platform.value))
        else if lines + 1 > MAX_PREAMBLE_LINES then Final(TooManyLines)
        else NextLine(length)
  {
    LineEndIs(stream, start, start + length - 1);
  }

  /** Steps of these lengths lead from one line to the next and end with the identification of p. */
  ghost predicate Steps(
    decide: (nat, nat) -> Decision, length: nat -> nat, size: nat, start: nat, lines: nat, lengths: seq<nat>, p: Platform)
    decreases |lengths|
  {
    && lengths != [] && lengths[0] == length(start)
    && if |lengths| == 1 then decide(start, lines) == Final(Identified(p))
       else
         && decide(start, lines) == NextLine(lengths[0]) && 0 < lengths[0] && start + lengths[0] <= size
         && Steps(decide, length, size, start + lengths[0], lines + 1, lengths[1..], p)
  }

  lemma {:induction false} StepsAreFollowed(
    decide: (nat, nat) -> Decision, length: nat -> nat, size: nat, start: nat, lines: nat, lengths: seq<nat>, p: Platform)
    requires Steps(decide, length, size, start, lines, lengths, p)
    ensures Follow(decide, size, start, lines) == Identified(p)
    decreases |lengths|
  {
    if |lengths| > 1 {
      StepsAreFollowed(decide, length, size, start + lengths[0], lines + 1, lengths[1..], p);
    }
  }

  ghost predicate LengthsFit(decide: (nat, nat) -> Decision, length: nat -> nat) {
    forall start: nat, lines: nat :: decide(start, lines).NextLine? ==> decide(start, lines).length == length(start)
  }

  lemma {:induction false} FollowedBySteps(
    decide: (nat, nat) -> Decision, length: nat -> nat, size: nat, start: nat, lines: nat, p: Platform)
    returns (lengths: seq<nat>)
    requires LengthsFit(decide, length) && Follow(decide, size, start, lines) == Identified(p)
    ensures Steps(decide, length, size, start, lines, lengths, p)
    decreases size - start
  {
    var d := decide(start, lines);
    lengths := [length(start)];
    if d.NextLine? {
      var rest := FollowedBySteps(decide, length, size, start + d.length, lines + 1, p);
      lengths := lengths + rest;
      assert lengths[1..] == rest && rest != [];
    }
  }

  /** The length of the line that begins at `start`, its line feed included if there is one. */
  function LineLength(stream: seq<Byte>, start: nat): nat
    requires start <= |stream|
  {
    LineEnd(stream, start) + 1 - start
  }

  function LengthOn(stream: seq<Byte>): nat -> nat {
    (start: nat) => if start <= |stream| then LineLength(stream, start) else 0
  }

  lemma DecisionsFit(classify: Classifier, stream: seq<Byte>)
    ensures LengthsFit(DecideOn(classify, stream), LengthOn(stream))
  {
  }

  /** Where a line is decided for, a complete line stands. */
  lemma DecidedLine(classify: Classifier, stream: seq<Byte>, start: nat, lines: nat)
    requires start <= |stream| && Decided(Decide(classify, stream, start, lines))
    ensures LineAt(stream, start, LineLength(stream, start))
  {
    FirstFeed(stream, start + 1);
  }

  /** What is decided where a line of length n stands. */
  function OnLine(platform: Option<Platform>, lines: nat, n: nat): Decision {
    if platform.Some? then Final(Identified(platform.value))
    else if lines + 1 > MAX_PREAMBLE_LINES then Final(TooManyLines)
    else NextLine(n)
  }

  predicate Decided(d: Decision) {
    d.NextLine? || (d.Final? && d.verdict.Identified?)
  }

  ghost predicate LineIsTaken(
    decide: (nat, nat) -> Decision, length: nat -> nat, size: nat,
    line: (nat, nat) -> bool, read: (nat, nat) -> Option<Platform>, start: nat, lines: nat, n: nat)
  {
    line(start, n) ==>
      length(start) == n && 0 < n && start + n <= size && decide(start, lines) == OnLine(read(start, n), lines, n)
  }

  ghost predicate OnlyALineIsTaken(
    decide: (nat, nat) -> Decision, length: nat -> nat, line: (nat, nat) -> bool, start: nat, lines: nat)
  {
    Decided(decide(start, lines)) ==> line(start, length(start))
  }

  /** Decisions are taken line by line: for every complete line, and for nothing else. */
  ghost predicate LineByLine(
    decide: (nat, nat) -> Decision, length: nat -> nat, size: nat,
    line: (nat, nat) -> bool, read: (nat, nat) -> Option<Platform>)
  {
    && (forall start: nat, lines: nat, n: nat :: LineIsTaken(decide, length, size, line, read, start, lines, n))
    && (forall start: nat, lines: nat :: OnlyALineIsTaken(decide, length, line, start, lines))
  }

  lemma {:induction false} StepsAreLines(
    decide: (nat, nat) -> Decision, length: nat -> nat, size: nat,
    line: (nat, nat) -> bool, read: (nat, nat) -> Option<Platform>, start: nat, lines: nat, lengths: seq<nat>, p: Platform)
    requires LineByLine(decide, length, size, line, read) && lines <= MAX_PREAMBLE_LINES
    requires Steps(decide, length, size, start, lines, lengths, p)
    ensures LinesRead(line, read, start, lengths, p) && lines + |lengths| <= MAX_PREAMBLE_LINES + 1
    decreases |lengths|
  {
    assert OnlyALineIsTaken(decide, length, line, start, lines);
    assert LineIsTaken(decide, length, size, line, read, start, lines, lengths[0]);
    if |lengths| > 1 {
      StepsAreLines(decide, length, size, line, read, start + lengths[0], lines + 1, lengths[1..], p);
    }
  }

  lemma {:induction false} LinesAreSteps(
    decide: (nat, nat) -> Decision, length: nat -> nat, size: nat,
    line: (nat, nat) -> bool, read: (nat, nat) -> Option<Platform>, start: nat, lines: nat, lengths: seq<nat>, p: Platform)
    requires LineByLine(decide, length, size, line, read)
    requires LinesRead(line, read, start, lengths, p) && lines + |lengths| <= MAX_PREAMBLE_LINES + 1
    ensures Steps(decide, length, size, start, lines, lengths, p)
    decreases |lengths|
  {
    assert LineIsTaken(decide, length, size, line, read, start, lines, lengths[0]);
    if |lengths| > 1 {
      LinesAreSteps(decide, length, size, line, read, start + lengths[0], lines + 1, lengths[1..], p);
    }
  }

  lemma LineIsDecided(classify: Classifier, stream: seq<Byte>, start: nat, lines: nat, n: nat)
    requires LineAt(stream, start, n)
    ensures start <= |stream| && LineLength(stream, start) == n && 0 < n && start + n <= |stream|
    ensures Decide(classify, stream, start, lines) == OnLine(classify(LineText(stream, start, start + n - 1)), lines, n)
  {
    DecideOnLine(classify, stream, start, lines, n);
    LineEndIs(stream, start, start + n - 1);
  }

  lemma ScanIsLineByLine(classify: Classifier, stream: seq<Byte>)
    ensures LineByLine(DecideOn(classify, stream), LengthOn(stream), |stream|, LineOn(stream), ReadOn(classify, stream))
  {
    var decide, length := DecideOn(classify, stream), LengthOn(stream);
    var line, read := LineOn(stream), ReadOn(classify, stream);
    forall start: nat, lines: nat, n: nat ensures LineIsTaken(decide, length, |stream|, line, read, start, lines, n) {
      if LineAt(stream, start, n) {
        LineIsDecided(classify, stream, start, lines, n);
      }
    }
    forall start: nat, lines: nat ensures OnlyALineIsTaken(decide, length, line, start, lines) {
      if start <= |stream| && Decided(Decide(classify, stream, start, lines)) {
        DecidedLine(classify, stream, start, lines);
      }
    }
  }

  /**
   A stream identifies p if and only if at most twenty complete lines of at most 255 bytes that identify nothing
   stand in front of such a line that identifies p.
   */
  lemma ScanMeaning(classify: Classifier, stream: seq<Byte>, p: Platform)
    ensures Scan(classify, stream, 0, 0) == Identified(p) <==>
            exists lengths :: |lengths| <= MAX_PREAMBLE_LINES + 1 && Announces(classify, stream, lengths, p)
  {
    var decide, length := DecideOn(classify, stream), LengthOn(stream);
    var line, read := LineOn(stream), ReadOn(classify, stream);
    ScanIsLineByLine(classify, stream);
    if Scan(classify, stream, 0, 0) == Identified(p) {
      DecisionsFit(classify, stream);
      var lengths := FollowedBySteps(decide, length, |stream|, 0, 0, p);
      StepsAreLines(decide, length, |stream|, line, read, 0, 0, lengths, p);
      assert Announces(classify, stream, lengths, p);
    }
    if lengths :| |lengths| <= MAX_PREAMBLE_LINES + 1 && Announces(classify, stream, lengths, p) {
      LinesAreSteps(decide, length, |stream|, line, read, 0, 0, lengths, p);
      StepsAreFollowed(decide, length, |stream|, 0, 0, lengths, p);
    }
  }

  // -------------------------------------------------------------- identification

  /** A decision taken on any prefix of the stream is the decision of the one-pass scan. */
  lemma PrefixDecides(classify: Classifier, stream: seq<Byte>, replay: seq<Byte>, start: nat, lines: nat)
    requires replay <= stream && start <= |replay|
    ensures
      match Decide(classify, replay, start, lines)
      case Final(verdict) => Scan(classify, stream, start, lines) == verdict
      case NextLine(n) => Scan(classify, stream, start, lines) == Scan(classify, stream, start + n, lines + 1)
      case NeedMore => replay == stream ==> Scan(classify, stream, start, lines) == EndedEarly
  {
    LineEndOfPrefix(replay, stream, start);
    var k := LineEnd(replay, start);
    if k < |replay| {
      assert LineText(replay, start, k) == LineText(stream, start, k);
    }
  }

  /** How far the scanner has got: the one-pass scan of the rest still gives the stream's verdict. */
  ghost predicate Progress(
    classify: Classifier, verdict: Verdict, stream: seq<Byte>, replay: seq<Byte>, lineStart: nat, lines: nat)
  {
    && replay <= stream && lineStart <= |replay|
    && lines <= MAX_PREAMBLE_LINES && lineStart <= lines * MAX_LINE_BYTES
    && Scan(classify, stream, lineStart, lines) == verdict
  }

  /** Nothing more can be decided from the bytes read so far. */
  ghost predicate Undecided(replay: seq<Byte>, lineStart: nat) {
    lineStart <= |replay| && |replay| - lineStart < MAX_LINE_BYTES && LineEnd(replay, lineStart) == |replay|
  }

  lemma ProgressAdvances(
    classify: Classifier, verdict: Verdict, stream: seq<Byte>, replay: seq<Byte>, lineStart: nat, lines: nat)
    requires Progress(classify, verdict, stream, replay, lineStart, lines)
    ensures
      match Decide(classify, replay, lineStart, lines)
      case Final(v) => v == verdict
      case NextLine(n) => Progress(classify, verdict, stream, replay, lineStart + n, lines + 1)
      case NeedMore => replay == stream ==> verdict == EndedEarly
  {
    PrefixDecides(classify, stream, replay, lineStart, lines);
    assert (lines + 1) * MAX_LINE_BYTES == lines * MAX_LINE_BYTES + MAX_LINE_BYTES;
  }

  /** One round of the inner loop, on the bytes of the current line. */
  method DecideLine(classify: Classifier, s: seq<Byte>, start: nat, lines: nat) returns (decision: Decision)
    requires start <= |s|
    ensures decision == Decide(classify, s, start, lines)
    ensures decision.NeedMore? ==> LineEnd(s, start) == |s| && |s| - start < MAX_LINE_BYTES
  {
    var newline := start + 1;
    while newline < |s| && s[newline] != NEWLINE
      invariant LineEndFrom(s, newline) == LineEnd(s, start)
      invariant start < newline && (newline <= |s| || start == |s|)
    {
      newline := newline + 1;
    }
    if newline >= |s| {
      return if |s| - start >= MAX_LINE_BYTES then Final(LineTooLong) else NeedMore;
    }
    if newline + 1 - start > MAX_LINE_BYTES {
      return Final(LineTooLong);
    }
    var platform := classify(LineText(s, start, newline));
    if platform.Some? {
      return Final(Identified(platform.value));
    }
    return if lines + 1 > MAX_PREAMBLE_LINES then Final(TooManyLines) else NextLine(newline + 1 - start);
  }

  /** One round of the inner loop, seen against the whole stream. */
  method ConsumeLine(
    classify: Classifier, ghost verdict: Verdict, ghost stream: seq<Byte>, replay: seq<Byte>, lineStart: nat, lines: nat)
    returns (decision: Decision)
    requires Progress(classify, verdict, stream, replay, lineStart, lines)
    ensures decision.Final? ==> decision.verdict == verdict
    ensures decision.NeedMore? ==> Undecided(replay, lineStart)
    ensures decision.NextLine? ==> 0 < decision.length <= |replay| - lineStart
    ensures decision.NextLine? ==> Progress(classify, verdict, stream, replay, lineStart + decision.length, lines + 1)
  {
    ProgressAdvances(classify, verdict, stream, replay, lineStart, lines);
    decision := DecideLine(classify, replay, lineStart, lines);
  }

  /** The inner loop: consumes the complete lines of the replay buffer. */
  method ConsumeLines(
    classify: Classifier, ghost verdict: Verdict, ghost stream: seq<Byte>, replay: seq<Byte>, from: nat, linesBefore: nat)
    returns (decided: Option<Verdict>, lineStart: nat, lines: nat)
    requires Progress(classify, verdict, stream, replay, from, linesBefore)
    ensures decided.Some? ==> decided.value == verdict
    ensures decided.None? ==> Progress(classify, verdict, stream, replay, lineStart, lines) && Undecided(replay, lineStart)
  {
    lineStart, lines := from, linesBefore;
    while true
      invariant Progress(classify, verdict, stream, replay, lineStart, lines)
      decreases |replay| - lineStart
    {
      var decision := ConsumeLine(classify, verdict, stream, replay, lineStart, lines);
      if decision.Final? {
        return Some(decision.verdict), lineStart, lines;
      }
      if decision.NeedMore? {
        return None, lineStart, lines;
      }
      lines, lineStart := lines + 1, lineStart + decision.length;
    }
  }

  /**
   The exchange. For every stream and every way its bytes arrive, the verdict is
   that of the one-pass scan; replayed and unread bytes together are the stream;
   the replay buffer stays bounded; the client identification is sent once. That
   no read has zero length is the precondition of `Transport.Read`.
   */
  method Identify(transport: Transport, clientId: seq<Byte>) returns (verdict: Verdict, replay: seq<Byte>)
    modifies transport
    ensures verdict == Scan(Classify, old(transport.unread), 0, 0)
    ensures replay + transport.unread == old(transport.unread)
    ensures |replay| <= MAX_PREAMBLE_LINES * MAX_LINE_BYTES + READ_BYTES
    ensures transport.wire == old(transport.wire) + clientId
  {
    ghost var stream := transport.unread;
    ghost var answer := Scan(Classify, stream, 0, 0);
    transport.WriteAll(clientId);
    replay := [];
    var lineStart, lines := 0, 0;
    while true
      invariant replay + transport.unread == stream
      invariant Progress(Classify, answer, stream, replay, lineStart, lines) && Undecided(replay, lineStart)
      invariant transport.wire == old(transport.wire) + clientId
      decreases |transport.unread|
    {
      var available := READ_BYTES - (|replay| - lineStart);
      var chunk := transport.Read(available);
      if chunk == [] {
        assert replay == stream;
        ProgressAdvances(Classify, answer, stream, replay, lineStart, lines);
        return EndedEarly, replay;
      }
      assert replay + chunk + transport.unread == replay + (chunk + transport.unread);
      replay := replay + chunk;
      var decided;
      decided, lineStart, lines := ConsumeLines(Classify, answer, stream, replay, lineStart, lines);
      if decided.Some? {
        return decided.value, replay;
      }
    }
  }

  // ------------------------------------------------------- the transparent stream

  function Flatten(pieces: seq<seq<Byte>>): seq<Byte> {
    if pieces == [] then [] else pieces[0] + Flatten(pieces[1..])
  }

  /** One of two byte strings is a prefix of the other. */
  predicate Agree(a: seq<Byte>, b: seq<Byte>) {
    a <= b || b <= a
  }

  class IdentificationStream {
    const inner: Transport
    const replay: seq<Byte>
    var replayOffset: nat
    const clientId: seq<Byte>
    var clientIdOffset: nat
    /** Every byte the writer has been told was written. */
    ghost var accepted: seq<Byte>

    /** What is on the wire is the identification once, then whatever was written after it. */
    ghost predicate Valid()
      reads this, inner
    {
      && replayOffset <= |replay|
      && clientIdOffset <= |clientId|
      && clientIdOffset == Min(|accepted|, |clientId|)
      && accepted[..clientIdOffset] == clientId[..clientIdOffset]
      && inner.wire == clientId + accepted[clientIdOffset..]
    }

    constructor (inner: Transport, replay: seq<Byte>, clientId: seq<Byte>)
      requires inner.wire == clientId
      ensures Valid() && accepted == [] && replayOffset == 0
      ensures this.inner == inner && this.replay == replay && this.clientId == clientId
    {
      this.inner, this.replay, this.clientId := inner, replay, clientId;
      replayOffset, clientIdOffset, accepted := 0, 0, [];
    }

    /** The bytes the reader has not seen yet. */
    ghost function ToRead(): seq<Byte>
      requires replayOffset <= |replay|
      reads this, inner
    {
      replay[replayOffset..] + inner.unread
    }

    method PollRead(capacity: nat) returns (chunk: seq<Byte>)
      requires Valid()
      modifies this`replayOffset, inner`unread
      ensures Valid() && chunk + ToRead() == old(ToRead()) && |chunk| <= capacity
      ensures chunk == [] <==> capacity == 0 || old(ToRead()) == []
    {
      if replayOffset < |replay| {
        var end := Min(|replay|, replayOffset + capacity);
        chunk := replay[replayOffset..end];
        assert chunk + replay[end..] == replay[replayOffset..];
        replayOffset := end;
        assert chunk + ToRead() == chunk + replay[end..] + inner.unread;
      } else if capacity == 0 {
        chunk := [];
      } else {
        chunk := inner.Read(capacity);
        assert replay[replayOffset..] == [];
      }
    }

    /** Any sequence of read sizes delivers exactly the peer's bytes, in order. */
    method ReadInPieces(sizes: seq<nat>) returns (seen: seq<Byte>)
      requires Valid()
      modifies this`replayOffset, inner`unread
      ensures Valid() && seen + ToRead() == old(ToRead())
    {
      seen := [];
      for i := 0 to |sizes|
        invariant Valid() && seen + ToRead() == old(ToRead())
      {
        ghost var before, rest := seen, ToRead();
        var chunk := PollRead(sizes[i]);
        seen := seen + chunk;
        Regroup(before, chunk, ToRead());
      }
    }

    /** The number of accepted bytes, or `None` for an identification mismatch. */
    method PollWrite(buffer: seq<Byte>) returns (count: Option<nat>)
      requires Valid()
      modifies this`clientIdOffset, this`accepted, inner`wire
      ensures Valid()
      ensures count.Some? ==>
                && count.value <= |buffer| && (count.value == 0 <==> buffer == [])
                && accepted == old(accepted) + buffer[..count.value]
      ensures count.None? ==> inner.wire == old(inner.wire) && accepted == old(accepted)
      ensures count.None? <==> !Agree(old(accepted) + buffer, clientId)
    {
      if clientIdOffset < |clientId| {
        var n := Min(|buffer|, |clientId| - clientIdOffset);
        assert accepted == clientId[..clientIdOffset];
        if buffer[..n] != clientId[clientIdOffset..clientIdOffset + n] {
          MismatchDisagrees(accepted, buffer, clientId, n);
          return None;
        }
        MatchAgrees(accepted, buffer, clientId, n);
        accepted := accepted + buffer[..n];
        clientIdOffset := clientIdOffset + n;
        assert accepted[clientIdOffset..] == [];
        return Some(n);
      }
      assert clientId <= accepted by {
        assert accepted[..clientIdOffset] == clientId;
      }
      var n := inner.Write(buffer);
      assert clientId <= old(accepted) + buffer;
      assert (accepted + buffer[..n])[clientIdOffset..] == accepted[clientIdOffset..] + buffer[..n];
      assert (accepted + buffer[..n])[..clientIdOffset] == accepted[..clientIdOffset];
      accepted := accepted + buffer[..n];
      return Some(n);
    }

    /** Writes one buffer completely, as a writer that retries the unwritten rest does. */
    method WriteAll(buffer: seq<Byte>) returns (ok: bool)
      requires Valid() && Agree(accepted, clientId)
      modifies this`clientIdOffset, this`accepted, inner`wire
      ensures Valid()
      ensures ok <==> Agree(old(accepted) + buffer, clientId)
      ensures ok ==> accepted == old(accepted) + buffer
      ensures !ok ==> inner.wire == clientId
    {
      var done := 0;
      assert old(accepted) + buffer[..0] == accepted;
      while done < |buffer|
        invariant done <= |buffer| && Valid() && accepted == old(accepted) + buffer[..done]
        invariant Agree(accepted, clientId)
      {
        var count := PollWrite(buffer[done..]);
        assert old(accepted) + buffer[..done] + buffer[done..] == old(accepted) + buffer;
        if count.None? {
          assert !(clientId <= accepted);
          return false;
        }
        var n := count.value;
        assert buffer[..done] + buffer[done..][..n] == buffer[..done + n];
        done := done + n;
        PrefixAgrees(accepted, old(accepted) + buffer, clientId);
      }
      assert buffer[..done] == buffer;
      ok := true;
    }

    /**
     However the writer fragments its bytes: if they are consistent with the
     identification, the wire carries the identification once followed by the rest;
     if they are not, nothing beyond the identification is ever forwarded.
     */
    method WriteInPieces(pieces: seq<seq<Byte>>) returns (ok: bool)
      requires Valid() && accepted == []
      modifies this`clientIdOffset, this`accepted, inner`wire
      ensures ok <==> Agree(Flatten(pieces), clientId)
      ensures ok && clientId <= Flatten(pieces) ==> inner.wire == Flatten(pieces)
      ensures ok && Flatten(pieces) <= clientId ==> inner.wire == clientId
      ensures !ok ==> inner.wire == clientId
    {
      var i := 0;
      assert pieces[0..] == pieces;
      while i < |pieces|
        invariant i <= |pieces| && Valid() && Agree(accepted, clientId)
        invariant accepted + Flatten(pieces[i..]) == Flatten(pieces)
      {
        assert pieces[i..][1..] == pieces[i + 1..];
        assert accepted + pieces[i] + Flatten(pieces[i + 1..]) == Flatten(pieces);
        ghost var before := accepted;
        ok := WriteAll(pieces[i]);
        if !ok {
          if Agree(Flatten(pieces), clientId) {
            PrefixAgrees(before + pieces[i], Flatten(pieces), clientId);
          }
          return;
        }
        i := i + 1;
      }
      ok := true;
      assert accepted == Flatten(pieces);
      WireCarriesAll(clientId, accepted, clientIdOffset);
    }
  }

  lemma Regroup<T>(a: seq<T>, b: seq<T>, c: seq<T>)
    ensures a + b + c == a + (b + c)
  {
  }

  lemma WireCarriesAll(id: seq<Byte>, accepted: seq<Byte>, offset: nat)
    requires offset == Min(|accepted|, |id|) && accepted[..offset] == id[..offset]
    ensures id <= accepted ==> id + accepted[offset..] == accepted
    ensures accepted <= id ==> id + accepted[offset..] == id
  {
  }

  lemma PrefixAgrees(a: seq<Byte>, b: seq<Byte>, id: seq<Byte>)
    requires a <= b && Agree(b, id)
    ensures Agree(a, id)
  {
  }

  lemma MismatchDisagrees(accepted: seq<Byte>, buffer: seq<Byte>, id: seq<Byte>, n: nat)
    requires accepted <= id && n <= |buffer| && |accepted| + n <= |id|
    requires buffer[..n] != id[|accepted|..|accepted| + n]
    ensures !Agree(accepted + buffer, id)
  {
    var i :| 0 <= i < n && buffer[i] != id[|accepted| + i];
    assert (accepted + buffer)[|accepted| + i] == buffer[i];
  }

  lemma MatchAgrees(accepted: seq<Byte>, buffer: seq<Byte>, id: seq<Byte>, n: nat)
    requires accepted <= id && n == Min(|buffer|, |id| - |accepted|)
    requires buffer[..n] == id[|accepted|..|accepted| + n]
    ensures Agree(accepted + buffer, id)
    ensures accepted + buffer[..n] == id[..|accepted| + n]
  {
    assert id[..|accepted|] + id[|accepted|..|accepted| + n] == id[..|accepted| + n];
    if n == |buffer| {
      assert buffer[..n] == buffer;
    } else {
      assert accepted + buffer == (accepted + buffer[..n]) + buffer[n..];
    }
  }
}
