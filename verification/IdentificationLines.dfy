/** What a peer sends, line by line, and what the scanner makes of it: lines as texts with their terminators. */
module IdentificationLines {
  import opened Basics
  import opened ByteStreams
  import opened Identification

  /** A line as it is sent: its text, and a line feed with or without a carriage return in front of it. */
  datatype SentLine = SentLine(text: seq<Byte>, crlf: bool)

  function Wire(l: SentLine): seq<Byte> {
    l.text + (if l.crlf then [CARRIAGE_RETURN, NEWLINE] else [NEWLINE])
  }

  /**
   At least two and at most 255 bytes with the terminator, whose carriage return is not counted to the text.
   A line feed can only stand at the very front, where it ends nothing.
   */
  ghost predicate Sound(l: SentLine) {
    && 2 <= |Wire(l)| <= MAX_LINE_BYTES
    && NoFeed(l.text, 1, |l.text|)
    && (!l.crlf ==> l.text[|l.text| - 1] != CARRIAGE_RETURN)
  }

  function Wires(lines: seq<SentLine>): seq<Byte> {
    if lines == [] then [] else Wire(lines[0]) + Wires(lines[1..])
  }

  /** Sound lines that identify nothing. */
  ghost predicate Silent(classify: Classifier, lines: seq<SentLine>) {
    forall i :: 0 <= i < |lines| ==> Sound(lines[i]) && classify(lines[i].text).None?
  }

  /** The bytes begin with a line that identifies p. */
  ghost predicate Banner(classify: Classifier, rest: seq<Byte>, p: Platform) {
    exists l: SentLine :: Sound(l) && classify(l.text) == Some(p) && Wire(l) <= rest
  }

  /** What stands behind `n` lines that identified nothing when this verdict is given. */
  ghost predicate Stands(classify: Classifier, n: nat, rest: seq<Byte>, verdict: Verdict) {
    match verdict
    case Identified(p) => n <= MAX_PREAMBLE_LINES && Banner(classify, rest, p)
    case TooManyLines => n == MAX_PREAMBLE_LINES + 1
    case LineTooLong => n <= MAX_PREAMBLE_LINES && |rest| >= MAX_LINE_BYTES && NoFeed(rest, 1, MAX_LINE_BYTES)
    case EndedEarly => n <= MAX_PREAMBLE_LINES && |rest| < MAX_LINE_BYTES && NoFeed(rest, 1, |rest|)
  }

  /** The bytes consist of these silent lines and then of what the verdict needs. */
  ghost predicate Shows(
    classify: Classifier, bytes: seq<Byte>, n: nat, lines: seq<SentLine>, rest: seq<Byte>, verdict: Verdict)
  {
    && bytes == Wires(lines) + rest
    && Silent(classify, lines)
    && Stands(classify, n + |lines|, rest, verdict)
  }

  // ------------------------------------------------------------- one line at a time

  lemma WireIsLine(l: SentLine, rest: seq<Byte>)
    requires Sound(l)
    ensures
      var stream, k := Wire(l) + rest, |Wire(l)| - 1;
      LineEnd(stream, 0) == k && LineText(stream, 0, k) == l.text
  {
    var w, stream := Wire(l), Wire(l) + rest;
    var k := |w| - 1;
    assert forall i :: 0 <= i < |w| ==> stream[i] == w[i];
    assert forall i :: 0 <= i < |l.text| ==> w[i] == l.text[i];
    assert stream[k] == w[k] == NEWLINE && stream[k - 1] == w[k - 1];
    forall i | 1 <= i < k && i < |stream| ensures stream[i] != NEWLINE {
      assert stream[i] == w[i];
    }
    LineEndIs(stream, 0, k);
    if !l.crlf {
      assert w[k - 1] == l.text[|l.text| - 1];
    }
  }

  lemma DecideOnTail(classify: Classifier, stream: seq<Byte>, start: nat, lines: nat)
    requires start <= |stream|
    ensures Decide(classify, stream, start, lines) == Decide(classify, stream[start..], 0, lines)
  {
    var tail := stream[start..];
    var k, j := LineEnd(stream, start), LineEnd(tail, 0);
    FirstFeed(stream, start + 1);
    FirstFeed(tail, 1);
    assert k < |stream| ==> tail[k - start] == stream[k];
    assert j < |tail| ==> stream[start + j] == tail[j];
    assert k == start + j;
    if k < |stream| {
      assert stream[k - 1] == tail[j - 1];
      assert LineText(stream, start, k) == LineText(tail, 0, j);
    }
  }

  ghost predicate Agree(decide: (nat, nat) -> Decision, other: (nat, nat) -> Decision, start: nat, x: nat, n: nat) {
    decide(start + x, n) == other(x, n)
  }

  lemma {:induction false} FollowOnTail(
    decide: (nat, nat) -> Decision, other: (nat, nat) -> Decision, size: nat, start: nat, at: nat, n: nat)
    requires start + at <= size && forall x: nat, m: nat :: Agree(decide, other, start, x, m)
    ensures Follow(decide, size, start + at, n) == Follow(other, size - start, at, n)
    decreases size - at
  {
    assert Agree(decide, other, start, at, n);
    var d := other(at, n);
    if d.NextLine? && 0 < d.length && start + at + d.length <= size {
      FollowOnTail(decide, other, size, start, at + d.length, n + 1);
    }
  }

  /** Scanning from a position is scanning what stands there. */
  lemma ScanOfTail(classify: Classifier, stream: seq<Byte>, start: nat, n: nat)
    requires start <= |stream|
    ensures Scan(classify, stream, start, n) == Scan(classify, stream[start..], 0, n)
  {
    var tail := stream[start..];
    forall x: nat, m: nat ensures Agree(DecideOn(classify, stream), DecideOn(classify, tail), start, x, m) {
      if start + x <= |stream| {
        DecideOnTail(classify, stream, start + x, m);
        DecideOnTail(classify, tail, x, m);
        assert tail[x..] == stream[start + x..];
      }
    }
    FollowOnTail(DecideOn(classify, stream), DecideOn(classify, tail), |stream|, start, 0, n);
  }

  /** The scan as a function of the bytes still to be read and of the lines before them. */
  function ScanFrom(classify: Classifier): (seq<Byte>, nat) -> Verdict {
    (bytes: seq<Byte>, n: nat) => Scan(classify, bytes, 0, n)
  }

  type Scanner = (seq<Byte>, nat) -> Verdict

  /** What a scanner does with a line in front. */
  ghost predicate TakesLine(scan: Scanner, classify: Classifier, l: SentLine, rest: seq<Byte>, n: nat) {
    Sound(l) && n <= MAX_PREAMBLE_LINES ==>
      scan(Wire(l) + rest, n) ==
        if classify(l.text).Some? then Identified(classify(l.text).value)
        else if n < MAX_PREAMBLE_LINES then scan(rest, n + 1)
        else TooManyLines
  }

  /** What a scanner does when no line is in front. */
  ghost predicate TakesNoLine(scan: Scanner, bytes: seq<Byte>, n: nat) {
    && (|bytes| >= MAX_LINE_BYTES && NoFeed(bytes, 1, MAX_LINE_BYTES) ==> scan(bytes, n) == LineTooLong)
    && (|bytes| < MAX_LINE_BYTES && NoFeed(bytes, 1, |bytes|) ==> scan(bytes, n) == EndedEarly)
  }

  ghost predicate Scanning(scan: Scanner, classify: Classifier) {
    && (forall l: SentLine, rest, n: nat :: TakesLine(scan, classify, l, rest, n))
    && (forall bytes, n: nat :: TakesNoLine(scan, bytes, n))
  }

  lemma LineIsTakenFrom(classify: Classifier, l: SentLine, rest: seq<Byte>, n: nat)
    ensures TakesLine(ScanFrom(classify), classify, l, rest, n)
  {
    if Sound(l) && n <= MAX_PREAMBLE_LINES {
      var stream := Wire(l) + rest;
      WireIsLine(l, rest);
      if classify(l.text).None? && n < MAX_PREAMBLE_LINES {
        ScanOfTail(classify, stream, |Wire(l)|, n + 1);
        assert stream[|Wire(l)|..] == rest;
      }
    }
  }

  lemma NoLineIsTakenFrom(classify: Classifier, bytes: seq<Byte>, n: nat)
    ensures TakesNoLine(ScanFrom(classify), bytes, n)
  {
    FirstFeed(bytes, 1);
  }

  lemma ScanFromScans(classify: Classifier)
    ensures Scanning(ScanFrom(classify), classify)
  {
    forall l: SentLine, rest, n: nat ensures TakesLine(ScanFrom(classify), classify, l, rest, n) {
      LineIsTakenFrom(classify, l, rest, n);
    }
    forall bytes, n: nat ensures TakesNoLine(ScanFrom(classify), bytes, n) {
      NoLineIsTakenFrom(classify, bytes, n);
    }
  }

  lemma StandingIsScanned(scan: Scanner, classify: Classifier, n: nat, bytes: seq<Byte>, verdict: Verdict)
    requires Scanning(scan, classify) && n <= MAX_PREAMBLE_LINES && Stands(classify, n, bytes, verdict)
    ensures scan(bytes, n) == verdict
  {
    assert TakesNoLine(scan, bytes, n);
    if verdict.Identified? {
      var l: SentLine :| Sound(l) && classify(l.text) == Some(verdict.platform) && Wire(l) <= bytes;
      var rest := bytes[|Wire(l)|..];
      assert TakesLine(scan, classify, l, rest, n);
      assert bytes == Wire(l) + rest;
    }
  }

  lemma WiresFirst(lines: seq<SentLine>, rest: seq<Byte>)
    requires lines != []
    ensures Wires(lines) + rest == Wire(lines[0]) + (Wires(lines[1..]) + rest)
  {
  }

  /** Lines that identify nothing, and then what a verdict needs: the scan gives that verdict. */
  lemma {:induction false} ShownIsScanned(
    scan: Scanner, classify: Classifier, bytes: seq<Byte>, n: nat, lines: seq<SentLine>, rest: seq<Byte>, verdict: Verdict)
    requires Scanning(scan, classify)
    requires n <= MAX_PREAMBLE_LINES && Shows(classify, bytes, n, lines, rest, verdict)
    ensures scan(bytes, n) == verdict
    decreases |lines|
  {
    if lines == [] {
      assert bytes == rest;
      StandingIsScanned(scan, classify, n, bytes, verdict);
    } else {
      var tail := Wires(lines[1..]) + rest;
      WiresFirst(lines, rest);
      assert TakesLine(scan, classify, lines[0], tail, n);
      if n < MAX_PREAMBLE_LINES {
        ShownIsScanned(scan, classify, tail, n + 1, lines[1..], rest, verdict);
      }
    }
  }

  // -------------------------------------------------------------- every stream is lines

  /** Where the first line feed behind the first byte stands within reach, a sound line begins the bytes. */
  lemma LineIsWire(bytes: seq<Byte>) returns (l: SentLine, rest: seq<Byte>)
    requires LineEnd(bytes, 0) < |bytes| && LineEnd(bytes, 0) < MAX_LINE_BYTES
    ensures Sound(l) && bytes == Wire(l) + rest
  {
    var k := LineEnd(bytes, 0);
    FirstFeed(bytes, 1);
    l, rest := SentLine(LineText(bytes, 0, k), bytes[k - 1] == CARRIAGE_RETURN), bytes[k + 1..];
  }

  lemma NoLineStands(classify: Classifier, bytes: seq<Byte>, n: nat) returns (verdict: Verdict)
    requires LineEnd(bytes, 0) == |bytes| || LineEnd(bytes, 0) >= MAX_LINE_BYTES
    requires n <= MAX_PREAMBLE_LINES
    ensures Stands(classify, n, bytes, verdict)
  {
    FirstFeed(bytes, 1);
    verdict := if |bytes| >= MAX_LINE_BYTES then LineTooLong else EndedEarly;
  }

  lemma PutInFront(
    classify: Classifier, n: nat, l: SentLine, lines: seq<SentLine>, bytes: seq<Byte>, rest: seq<Byte>, verdict: Verdict)
    requires Sound(l) && classify(l.text).None? && Shows(classify, bytes, n + 1, lines, rest, verdict)
    ensures Shows(classify, Wire(l) + bytes, n, [l] + lines, rest, verdict)
  {
    assert ([l] + lines)[1..] == lines;
    WiresFirst([l] + lines, rest);
  }

  /** Every stream is some number of silent lines and something behind them that gives a verdict. */
  lemma {:induction false} SomethingIsShown(classify: Classifier, bytes: seq<Byte>, n: nat)
    returns (lines: seq<SentLine>, rest: seq<Byte>, verdict: Verdict)
    requires n <= MAX_PREAMBLE_LINES
    ensures Shows(classify, bytes, n, lines, rest, verdict)
    decreases |bytes|
  {
    lines, rest := [], bytes;
    assert Wires([]) + bytes == bytes;
    if LineEnd(bytes, 0) == |bytes| || LineEnd(bytes, 0) >= MAX_LINE_BYTES {
      verdict := NoLineStands(classify, bytes, n);
    } else {
      var l, tail := LineIsWire(bytes);
      if classify(l.text).Some? {
        verdict := Identified(classify(l.text).value);
        assert Banner(classify, bytes, classify(l.text).value);
      } else {
        if n < MAX_PREAMBLE_LINES {
          lines, rest, verdict := SomethingIsShown(classify, tail, n + 1);
        } else {
          rest, verdict := tail, TooManyLines;
          assert Wires([]) + tail == tail;
        }
        PutInFront(classify, n, l, lines, tail, rest, verdict);
        lines := [l] + lines;
      }
    }
  }

  /**
   For every stream and every verdict: the scan gives it exactly when the stream consists of lines that identify
   nothing, ended by a line feed or by a carriage return and a line feed, and then of what the verdict needs.
   */
  lemma VerdictMeaning(classify: Classifier, stream: seq<Byte>, verdict: Verdict)
    ensures Scan(classify, stream, 0, 0) == verdict <==>
            exists lines, rest :: Shows(classify, stream, 0, lines, rest, verdict)
  {
    ScanFromScans(classify);
    var lines, rest, shown := SomethingIsShown(classify, stream, 0);
    ShownIsScanned(ScanFrom(classify), classify, stream, 0, lines, rest, shown);
    if others, more :| Shows(classify, stream, 0, others, more, verdict) {
      ShownIsScanned(ScanFrom(classify), classify, stream, 0, others, more, verdict);
    }
  }

  /**
   A text of at most 253 bytes that identifies p does so whether a carriage return stands in front of its line feed
   or not, behind up to twenty lines that identify nothing, and whatever follows.
   */
  lemma BannerIdentifies(front: seq<SentLine>, text: seq<Byte>, crlf: bool, after: seq<Byte>, p: Platform)
    requires |front| <= MAX_PREAMBLE_LINES && Silent(Classify, front)
    requires text != [] && |text| <= 253 && NEWLINE !in text && text[|text| - 1] != CARRIAGE_RETURN
    requires Classify(text) == Some(p)
    ensures
      var end := if crlf then [CARRIAGE_RETURN, NEWLINE] else [NEWLINE];
      Scan(Classify, Wires(front) + (text + end + after), 0, 0) == Identified(p)
  {
    var l := SentLine(text, crlf);
    var rest := Wire(l) + after;
    assert Sound(l);
    assert Banner(Classify, rest, p);
    ScanFromScans(Classify);
    ShownIsScanned(ScanFrom(Classify), Classify, Wires(front) + rest, 0, front, rest, Identified(p));
  }
}
