/** What a job wrote to its log, line by line, and what the reader gives back of it. */
module LogLines {
  import opened Basics
  import opened LogTail

  /** A finished line: its text, and a line feed with or without a carriage return in front of it. */
  datatype Finished = Finished(text: Line, crlf: bool)

  function Wire(l: Finished): seq<Byte> {
    l.text + (if l.crlf then [RETURN, NEWLINE] else [NEWLINE])
  }

  ghost predicate Clean(text: Line) {
    NEWLINE !in text
  }

  /** No line feed in the text, and a carriage return at its end only where it belongs to the line end. */
  ghost predicate Sound(l: Finished) {
    Clean(l.text) && (!l.crlf && l.text != [] ==> l.text[|l.text| - 1] != RETURN)
  }

  ghost predicate AllSound(ls: List<Finished>) {
    ls.Cons? ==> Sound(ls.first) && AllSound(ls.rest)
  }

  /** Finished lines, and what stands behind the last line feed. */
  function Written(ls: List<Finished>, last: Line): seq<Byte> {
    if ls.Nil? then last else Wire(ls.first) + Written(ls.rest, last)
  }

  /** The texts; an unfinished last line counts unless it is empty, and keeps all of its bytes. */
  function Texts(ls: List<Finished>, last: Line): Lines {
    match ls
    case Nil => if last == [] then Nil else Cons(last, Nil)
    case Cons(l, rest) => Cons(l.text, Texts(rest, last))
  }

  lemma EndsAt(s: seq<Byte>, from: nat, to: nat)
    requires from <= to <= |s| && NoNewline(s, from, to) && (to < |s| ==> s[to] == NEWLINE)
    ensures LineEnd(s, from) == to
  {
    SameLineEnd(s, from, to);
  }

  /** A finished line in front is read as its text, and what follows as it would be alone. */
  lemma FinishedIsRead(l: Finished, rest: seq<Byte>)
    requires Sound(l)
    ensures LinesFrom(Wire(l) + rest, 0) == Cons(l.text, LinesFrom(rest, 0))
  {
    var w, s := Wire(l), Wire(l) + rest;
    var k := |w| - 1;
    assert forall i :: 0 <= i < |w| ==> s[i] == w[i];
    assert forall i :: 0 <= i < |l.text| ==> w[i] == l.text[i];
    assert w[k] == NEWLINE;
    EndsAt(s, 0, k);
    assert LineText(s, 0, k) == l.text;
    LinesOfSuffix(rest, s, k + 1, 0);
    assert LinesFrom(s, 0) == Cons(LineText(s, 0, k), LinesFrom(s, k + 1)) by {
      if k + 1 == |s| {
        assert LinesFrom(s, k + 1) == Nil;
      }
    }
  }

  lemma LastIsRead(last: Line)
    requires Clean(last)
    ensures LinesFrom(last, 0) == if last == [] then Nil else Cons(last, Nil)
  {
    EndsAt(last, 0, |last|);
    assert LineText(last, 0, |last|) == last;
  }

  /** Whatever was written, line by line, is what the lines of the file are. */
  lemma {:induction false} WrittenIsRead(ls: List<Finished>, last: Line)
    requires AllSound(ls) && Clean(last)
    ensures LinesFrom(Written(ls, last), 0) == Texts(ls, last)
    decreases ls
  {
    if ls.Nil? {
      LastIsRead(last);
    } else {
      FinishedIsRead(ls.first, Written(ls.rest, last));
      WrittenIsRead(ls.rest, last);
    }
  }

  /** Every file is such a text. */
  lemma {:induction false} FileIsWritten(file: seq<Byte>) returns (ls: List<Finished>, last: Line)
    ensures AllSound(ls) && Clean(last) && file == Written(ls, last)
    decreases |file|
  {
    var k := LineEnd(file, 0);
    LineEndMeaning(file, 0);
    if k == |file| {
      ls, last := Nil, file;
    } else {
      var more;
      more, last := FileIsWritten(file[k + 1..]);
      var l := Finished(LineText(file, 0, k), k > 0 && file[k - 1] == RETURN);
      assert Wire(l) == file[..k + 1];
      assert file == file[..k + 1] + file[k + 1..];
      ls := Cons(l, more);
    }
  }

  // ------------------------------------------------------------------- the last lines

  function Append<T>(a: List<T>, b: List<T>): List<T> {
    if a.Nil? then b else Cons(a.first, Append(a.rest, b))
  }

  /** The end of a list: what is left behind some front of it. */
  ghost predicate IsEndOf<T(!new)>(end: List<T>, all: List<T>) {
    exists front: List<T> :: all == Append(front, end)
  }

  lemma {:induction false} LastIsEnd<T(!new)>(lines: List<T>, n: nat)
    ensures Length(LastOf(lines, n)) == Min(n, Length(lines)) && IsEndOf(LastOf(lines, n), lines)
  {
    if Length(lines) <= n {
      assert lines == Append(Nil, lines);
    } else {
      LastIsEnd(lines.rest, n);
      var front: List<T> :| lines.rest == Append(front, LastOf(lines.rest, n));
      assert lines == Append(Cons(lines.first, front), LastOf(lines, n));
    }
  }

  lemma {:induction false} EndsOfOneLength<T>(front: List<T>, end: List<T>)
    ensures LastOf(Append(front, end), Length(end)) == end
  {
    LengthOfAppend(front, end);
    if front.Cons? {
      EndsOfOneLength(front.rest, end);
    }
  }

  lemma {:induction false} LengthOfAppend<T>(front: List<T>, end: List<T>)
    ensures Length(Append(front, end)) == Length(front) + Length(end)
  {
    if front.Cons? {
      LengthOfAppend(front.rest, end);
    }
  }

  /**
   For every log within the limit: the answer is exactly the texts of its last n lines, joined by line feeds, whether
   its lines end with or without carriage returns and whether or not its last line is finished.
   */
  lemma LastLinesComeBack(ls: List<Finished>, last: Line, front: Lines, end: Lines, limit: nat)
    requires AllSound(ls) && Clean(last) && limit >= 1 && |Written(ls, last)| <= limit
    requires Texts(ls, last) == Append(front, end)
    ensures Answer(Written(ls, last), limit, Length(end)) == Joined(end)
  {
    WrittenIsRead(ls, last);
    EndsOfOneLength(front, end);
  }

  /** Asking for more lines than there are gives them all. */
  lemma AllLinesComeBack(ls: List<Finished>, last: Line, n: nat, limit: nat)
    requires AllSound(ls) && Clean(last) && limit >= 1 && |Written(ls, last)| <= limit
    requires n >= Length(Texts(ls, last))
    ensures Answer(Written(ls, last), limit, n) == Joined(Texts(ls, last))
  {
    WrittenIsRead(ls, last);
  }
}
