/**
 The backwards reader of job logs (src/ssh/command.rs): it collects 8 KiB chunks from the end
 of the file until it has seen enough line ends, or one mebibyte.
 */
module LogTail {
  import opened Basics

  const NEWLINE: Byte := 10
  const RETURN: Byte := 13
  const CHUNK: nat := 8192
  const MAX_READ: nat := 1048576

  type Line = seq<Byte>

  datatype List<T> = Nil | Cons(first: T, rest: List<T>)

  type Lines = List<Line>

  function Length<T>(lines: List<T>): nat {
    if lines.Nil? then 0 else 1 + Length(lines.rest)
  }

  // ------------------------------------------------------------------- what is wanted

  /** Where the line that contains position `from` ends. */
  function LineEnd(s: seq<Byte>, from: nat): (i: nat)
    requires from <= |s|
    ensures from <= i <= |s|
    decreases |s| - from
  {
    if from == |s| || s[from] == NEWLINE then from else LineEnd(s, from + 1)
  }

  /** The bytes between two positions. */
  function Slice(s: seq<Byte>, from: nat, to: nat): (line: Line)
    requires from <= to <= |s|
    ensures |line| == to - from
  {
    seq(to - from, i requires 0 <= i < to - from => s[from + i])
  }

  /** Where the text of a finished line ends: a carriage return in front of a line feed belongs to the line end. */
  function TextEnd(s: seq<Byte>, from: nat, i: nat): (e: nat)
    requires from <= i <= |s|
    ensures from <= e <= i
  {
    if from < i < |s| && s[i - 1] == RETURN then i - 1 else i
  }

  /** The text between a position and the end of its line; an unfinished line keeps all of it. */
  function LineText(s: seq<Byte>, from: nat, i: nat): Line
    requires from <= i <= |s|
  {
    Slice(s, from, TextEnd(s, from, i))
  }

  /** The lines of a text from a position on; the last one need not be finished. */
  function LinesFrom(s: seq<Byte>, from: nat): Lines
    requires from <= |s|
    decreases |s| - from
  {
    var i := LineEnd(s, from);
    if from == |s| then Nil
    else Cons(LineText(s, from, i), if i == |s| then Nil else LinesFrom(s, i + 1))
  }

  /** The last n lines, or all of them. */
  function LastOf<T>(lines: List<T>, n: nat): List<T> {
    if Length(lines) <= n then lines else LastOf(lines.rest, n)
  }

  /** The line ends in a range of positions. */
  function CountNewlines(s: seq<Byte>, from: nat, to: nat): nat
    requires from <= to <= |s|
    decreases |s| - from
  {
    if from == to then 0 else (if s[from] == NEWLINE then 1 else 0) + CountNewlines(s, from + 1, to)
  }

  // ------------------------------------------------------------------ positions and slices

  ghost predicate NoNewline(s: seq<Byte>, from: nat, to: nat)
    requires from <= to <= |s|
  {
    forall k :: from <= k < to ==> s[k] != NEWLINE
  }

  lemma {:induction false} LineEndMeaning(s: seq<Byte>, from: nat)
    requires from <= |s|
    ensures NoNewline(s, from, LineEnd(s, from))
    ensures LineEnd(s, from) < |s| ==> s[LineEnd(s, from)] == NEWLINE
    decreases |s| - from
  {
    if from < |s| && s[from] != NEWLINE {
      LineEndMeaning(s, from + 1);
    }
  }

  lemma {:induction false} SameLineEnd(s: seq<Byte>, from: nat, to: nat)
    requires from <= to <= |s| && NoNewline(s, from, to)
    ensures LineEnd(s, from) == LineEnd(s, to)
    decreases |s| - from
  {
    if from < to {
      SameLineEnd(s, from + 1, to);
    }
  }

  /** t is what s holds from position `cut` on. */
  ghost predicate IsSuffix(t: seq<Byte>, s: seq<Byte>, cut: nat) {
    |t| + cut == |s| && forall k :: 0 <= k < |t| ==> t[k] == s[cut + k]
  }

  lemma {:induction false} LineEndOfSuffix(t: seq<Byte>, s: seq<Byte>, cut: nat, from: nat)
    requires IsSuffix(t, s, cut) && from <= |t|
    ensures cut + LineEnd(t, from) == LineEnd(s, cut + from)
    decreases |t| - from
  {
    if from < |t| && t[from] != NEWLINE {
      LineEndOfSuffix(t, s, cut, from + 1);
    }
  }

  /** The first line of t from a position on is that of s from the corresponding position on. */
  ghost predicate SameLine(t: seq<Byte>, s: seq<Byte>, cut: nat, from: nat)
    requires |t| + cut == |s| && from < |t|
  {
    var i := LineEnd(t, from);
    LineEnd(s, cut + from) == cut + i && LineText(s, cut + from, cut + i) == LineText(t, from, i)
  }

  lemma SuffixSameLine(t: seq<Byte>, s: seq<Byte>, cut: nat, from: nat)
    requires IsSuffix(t, s, cut) && from < |t|
    ensures SameLine(t, s, cut, from)
  {
    var i := LineEnd(t, from);
    LineEndOfSuffix(t, s, cut, from);
    assert TextEnd(s, cut + from, cut + i) == cut + TextEnd(t, from, i);
  }

  /** The lines of a suffix are the lines from the corresponding position on. */
  lemma {:induction false} LinesOfSuffix(t: seq<Byte>, s: seq<Byte>, cut: nat, from: nat)
    requires IsSuffix(t, s, cut) && from <= |t|
    ensures LinesFrom(t, from) == LinesFrom(s, cut + from)
    decreases |t| - from
  {
    if from < |t| {
      SuffixSameLine(t, s, cut, from);
      if LineEnd(t, from) < |t| {
        LinesOfSuffix(t, s, cut, LineEnd(t, from) + 1);
      }
    }
  }

  lemma {:induction false} CountOfSlice(s: seq<Byte>, lo: nat, hi: nat, from: nat)
    requires lo + from <= hi <= |s|
    ensures CountNewlines(s[lo..hi], from, hi - lo) == CountNewlines(s, lo + from, hi)
    decreases |s| - from
  {
    if lo + from < hi {
      CountOfSlice(s, lo, hi, from + 1);
    }
  }

  lemma {:induction false} CountSplit(s: seq<Byte>, lo: nat, mid: nat, hi: nat)
    requires lo <= mid <= hi <= |s|
    ensures CountNewlines(s, lo, hi) == CountNewlines(s, lo, mid) + CountNewlines(s, mid, hi)
    decreases |s| - lo
  {
    if lo < mid {
      CountSplit(s, lo + 1, mid, hi);
    }
  }

  lemma {:induction false} NoneToCount(s: seq<Byte>, from: nat, to: nat)
    requires from <= to <= |s| && NoNewline(s, from, to)
    ensures CountNewlines(s, from, to) == 0
    decreases |s| - from
  {
    if from < to {
      NoneToCount(s, from + 1, to);
    }
  }

  /** Every line end ends a line. */
  lemma {:induction false} EnoughLines(s: seq<Byte>, from: nat)
    requires from <= |s|
    ensures Length(LinesFrom(s, from)) >= CountNewlines(s, from, |s|)
    decreases |s| - from
  {
    var i := LineEnd(s, from);
    LineEndMeaning(s, from);
    NoneToCount(s, from, i);
    CountSplit(s, from, i, |s|);
    if i < |s| {
      EnoughLines(s, i + 1);
    }
  }

  // ------------------------------------------------------------- when a suffix is enough

  /** Where the line that contains position `cut` begins. */
  function LineStart(s: seq<Byte>, cut: nat): (i: nat)
    requires cut <= |s|
    ensures i <= cut
  {
    if cut == 0 || s[cut - 1] == NEWLINE then cut else LineStart(s, cut - 1)
  }

  lemma {:induction false} LineStartMeaning(s: seq<Byte>, cut: nat)
    requires cut <= |s|
    ensures NoNewline(s, LineStart(s, cut), cut)
    ensures LineStart(s, cut) > 0 ==> s[LineStart(s, cut) - 1] == NEWLINE
  {
    if cut > 0 && s[cut - 1] != NEWLINE {
      LineStartMeaning(s, cut - 1);
    }
  }

  /** The lines before a line's beginning come in front of those from it on. */
  lemma {:induction false} LinesBefore(s: seq<Byte>, from: nat, start: nat, n: nat)
    requires from <= start <= |s|
    requires start == from || s[start - 1] == NEWLINE
    ensures from < start ==> Length(LinesFrom(s, from)) > Length(LinesFrom(s, start))
    ensures n <= Length(LinesFrom(s, start)) ==> LastOf(LinesFrom(s, from), n) == LastOf(LinesFrom(s, start), n)
    decreases |s| - from
  {
    if from < start {
      LineEndMeaning(s, from);
      NotPast(s, from, start);
      LinesBefore(s, LineEnd(s, from) + 1, start, n);
    }
  }

  lemma NotPast(s: seq<Byte>, from: nat, start: nat)
    requires from < start <= |s| && s[start - 1] == NEWLINE
    ensures LineEnd(s, from) < start
  {
    LineEndMeaning(s, from);
    assert !NoNewline(s, from, start);
  }

  /** A line that is read from `cut` on keeps its text: nothing, or only its own line end, was missed. */
  predicate FirstLineIntact(s: seq<Byte>, start: nat, cut: nat)
    requires start <= cut <= |s|
  {
    start == cut || (start + 1 == cut < |s| && s[start] == RETURN && s[cut] == NEWLINE)
  }

  lemma TextShortens(s: seq<Byte>, start: nat, cut: nat, end: nat)
    requires start <= cut < |s| && cut <= end <= |s| && NoNewline(s, start, end) && (end < |s| ==> s[end] == NEWLINE)
    ensures LineText(s, start, end) == LineText(s, cut, end) <==> FirstLineIntact(s, start, cut)
  {
    assert |LineText(s, start, end)| == TextEnd(s, start, end) - start;
    assert |LineText(s, cut, end)| == TextEnd(s, cut, end) - cut;
  }

  /** Reading from the middle of a line changes that line and no other. */
  lemma LinesFromMiddle(s: seq<Byte>, start: nat, cut: nat)
    requires start <= cut < |s| && NoNewline(s, start, cut)
    ensures LinesFrom(s, start).Cons? && LinesFrom(s, cut).Cons?
    ensures LinesFrom(s, start).rest == LinesFrom(s, cut).rest
    ensures LinesFrom(s, start).first == LinesFrom(s, cut).first <==> FirstLineIntact(s, start, cut)
  {
    SameLineEnd(s, start, cut);
    LineEndMeaning(s, cut);
    TextShortens(s, start, cut, LineEnd(s, cut));
  }

  lemma {:induction false} LengthOfLast<T>(lines: List<T>, n: nat)
    ensures Length(LastOf(lines, n)) == Min(n, Length(lines))
  {
    if Length(lines) > n {
      LengthOfLast(lines.rest, n);
    }
  }

  /** The exact condition under which the lines from `cut` on end like those of the whole file. */
  predicate SuffixSuffices(file: seq<Byte>, cut: nat, n: nat)
    requires cut < |file|
  {
    var m, start := Length(LinesFrom(file, cut)), LineStart(file, cut);
    m > n || (FirstLineIntact(file, start, cut) && (m == n || start == 0))
  }

  /** A suffix has the file's last n lines exactly under the condition above. */
  lemma SuffixIsExact(file: seq<Byte>, cut: nat, n: nat)
    requires cut < |file| && n >= 1
    ensures LastOf(LinesFrom(file, 0), n) == LastOf(LinesFrom(file, cut), n) <==> SuffixSuffices(file, cut, n)
  {
    var start := LineStart(file, cut);
    LineStartMeaning(file, cut);
    LinesBefore(file, 0, start, n);
    LinesFromMiddle(file, start, cut);
    LengthOfLast(LinesFrom(file, 0), n);
  }

  // --------------------------------------------------------------------------- the reader

  /** Lines joined by line feeds. */
  function Joined(lines: Lines): seq<Byte> {
    match lines
    case Nil => []
    case Cons(line, Nil) => line
    case Cons(line, rest) => line + [NEWLINE] + Joined(rest)
  }

  /** The last n lines of what follows a position, joined by line feeds. */
  function Tail(s: seq<Byte>, from: nat, n: nat): seq<Byte>
    requires from <= |s|
  {
    Joined(LastOf(LinesFrom(s, from), n))
  }

  /** Whether a limit on the bytes read leaves the answer whole. */
  predicate WithinLimit(file: seq<Byte>, limit: nat, n: nat)
    requires limit >= 1
  {
    |file| <= limit || SuffixSuffices(file, |file| - limit, n)
  }

  /** The tail of the whole file if the limit allows it, and otherwise that of its last `limit` bytes. */
  function Answer(file: seq<Byte>, limit: nat, n: nat): seq<Byte>
    requires limit >= 1
  {
    Tail(file, if WithinLimit(file, limit, n) then 0 else |file| - limit, n)
  }

  // ------------------------------------------------------------- the text tells the lines

  ghost predicate LinesAreClean(lines: Lines) {
    lines.Cons? ==> NoNewline(lines.first, 0, |lines.first|) && LinesAreClean(lines.rest)
  }

  /** No line contains a line end. */
  lemma {:induction false} LinesFromAreClean(s: seq<Byte>, from: nat)
    requires from <= |s|
    ensures LinesAreClean(LinesFrom(s, from))
    decreases |s| - from
  {
    if from < |s| {
      LineEndMeaning(s, from);
      var i := LineEnd(s, from);
      LineTextIsClean(s, from, i);
      if i < |s| {
        LinesFromAreClean(s, i + 1);
      }
    }
  }

  lemma LineTextIsClean(s: seq<Byte>, from: nat, i: nat)
    requires from <= i <= |s| && NoNewline(s, from, i)
    ensures NoNewline(LineText(s, from, i), 0, |LineText(s, from, i)|)
  {
  }

  lemma {:induction false} LastIsClean(lines: Lines, n: nat)
    requires LinesAreClean(lines)
    ensures LinesAreClean(LastOf(lines, n))
  {
    if Length(lines) > n {
      LastIsClean(lines.rest, n);
    }
  }

  /** Lines behind each other: the first ends where the joined text has its first line end. */
  lemma JoinedEnds(lines: Lines)
    requires lines.Cons? && LinesAreClean(lines)
    ensures LineEnd(Joined(lines), 0) == |lines.first|
    ensures Joined(lines)[..|lines.first|] == lines.first
    ensures lines.rest.Nil? ==> Joined(lines) == lines.first
    ensures lines.rest.Cons? ==> |Joined(lines)| > |lines.first| && Joined(lines)[|lines.first| + 1..] == Joined(lines.rest)
  {
    var text := Joined(lines);
    if lines.rest.Cons? {
      assert text == lines.first + [NEWLINE] + Joined(lines.rest);
      assert text[|lines.first|] == NEWLINE;
    }
    SameLineEnd(text, 0, |lines.first|);
  }

  /** Two non-empty lists of lines with the same joined text are the same list. */
  lemma {:induction false} JoinedIsInjective(a: Lines, b: Lines)
    requires a.Cons? && b.Cons? && LinesAreClean(a) && LinesAreClean(b)
    requires Joined(a) == Joined(b)
    ensures a == b
  {
    JoinedEnds(a);
    JoinedEnds(b);
    if a.rest.Cons? {
      JoinedIsInjective(a.rest, b.rest);
    }
  }

  /** Outside the limit the lines really differ. */
  lemma BeyondLimitLinesAreCut(file: seq<Byte>, limit: nat, n: nat)
    requires n >= 1 && limit >= 1 && !WithinLimit(file, limit, n)
    ensures LastOf(LinesFrom(file, |file| - limit), n) != LastOf(LinesFrom(file, 0), n)
  {
    SuffixIsExact(file, |file| - limit, n);
  }

  lemma TailLines(file: seq<Byte>, from: nat, n: nat)
    requires from < |file| && n >= 1
    ensures LastOf(LinesFrom(file, from), n).Cons? && LinesAreClean(LastOf(LinesFrom(file, from), n))
  {
    LinesFromAreClean(file, from);
    LastIsClean(LinesFrom(file, from), n);
    LengthOfLast(LinesFrom(file, from), n);
  }

  /** The reader's text is the tail of the whole file if and only if the limit allows it. */
  lemma AnswerIsWholeExactlyWithinLimit(file: seq<Byte>, limit: nat, n: nat)
    requires limit >= 1 && n >= 1
    ensures Answer(file, limit, n) == Tail(file, 0, n) <==> WithinLimit(file, limit, n)
  {
    if !WithinLimit(file, limit, n) {
      var cut := |file| - limit;
      BeyondLimitLinesAreCut(file, limit, n);
      TailLines(file, 0, n);
      TailLines(file, cut, n);
      if Answer(file, limit, n) == Tail(file, 0, n) {
        JoinedIsInjective(LastOf(LinesFrom(file, cut), n), LastOf(LinesFrom(file, 0), n));
      }
    }
  }

  /** One long line is such a file: of more than a mebibyte without a line end, only the end comes back. */
  lemma LongLineIsCut(file: seq<Byte>)
    requires |file| > MAX_READ && NoNewline(file, 0, |file|)
    ensures Answer(file, MAX_READ, 1) != Tail(file, 0, 1)
  {
    LongLineIsBeyondLimit(file, MAX_READ);
    AnswerIsWholeExactlyWithinLimit(file, MAX_READ, 1);
  }

  lemma LongLineIsBeyondLimit(file: seq<Byte>, limit: nat)
    requires 1 <= limit < |file| && NoNewline(file, 0, |file|)
    ensures !WithinLimit(file, limit, 1)
  {
    var cut := |file| - limit;
    SameLineEnd(file, cut, |file|);
    LineStartMeaning(file, cut);
    assert Length(LinesFrom(file, cut)) == 1;
  }

  lemma ManyNewlinesSuffice(file: seq<Byte>, cut: nat, c: nat, n: nat)
    requires c <= cut < |file| && CountNewlines(file, cut, |file|) > n
    ensures SuffixSuffices(file, c, n)
  {
    CountSplit(file, c, cut, |file|);
    EnoughLines(file, c);
  }

  lemma StoppedByCount(file: seq<Byte>, limit: nat, cut: nat, n: nat)
    requires n >= 1 && limit >= 1 && cut < |file| <= cut + limit
    requires CountNewlines(file, cut, |file|) > n
    ensures WithinLimit(file, limit, n)
    ensures LastOf(LinesFrom(file, cut), n) == LastOf(LinesFrom(file, 0), n)
  {
    ManyNewlinesSuffice(file, cut, cut, n);
    SuffixIsExact(file, cut, n);
    if |file| > limit {
      ManyNewlinesSuffice(file, cut, |file| - limit, n);
    }
  }

  /** The state in which the reading loop ends answers for the whole file, or for the limit's suffix. */
  lemma StoppedReaderIsRight(file: seq<Byte>, limit: nat, cut: nat, n: nat)
    requires n >= 1 && limit >= 1 && cut <= |file| <= cut + limit
    requires cut == 0 || CountNewlines(file, cut, |file|) > n || |file| - cut == limit
    ensures Tail(file, cut, n) == Answer(file, limit, n)
  {
    if CountNewlines(file, cut, |file|) > n {
      assert cut < |file|;
      StoppedByCount(file, limit, cut, n);
    } else if cut > 0 && WithinLimit(file, limit, n) {
      SuffixIsExact(file, cut, n);
    }
  }

  lemma Prepend<T>(s: seq<T>, lo: nat, hi: nat)
    requires lo <= hi <= |s|
    ensures s[lo..] == s[lo..hi] + s[hi..]
  {
  }

  /** A file that nobody changes while it is read. */
  class LogFile {
    const contents: seq<Byte>
    var offset: nat

    constructor (contents: seq<Byte>)
      ensures this.contents == contents
    {
      this.contents := contents;
      offset := 0;
    }

    method Seek(position: nat)
      modifies this
      ensures offset == position
    {
      offset := position;
    }

    /** Returns some bytes, as many as it likes, and none only at the end of the file. */
    method Read(max: nat) returns (data: seq<Byte>)
      modifies this
      ensures |data| <= max && old(offset) + |data| == offset
      ensures old(offset) <= |contents| ==> offset <= |contents| && data == contents[old(offset)..offset]
      ensures |data| == 0 <==> max == 0 || old(offset) >= |contents|
    {
      if max == 0 || offset >= |contents| {
        return [];
      }
      var n :| 1 <= n <= max && offset + n <= |contents|;
      data := contents[offset..offset + n];
      offset := offset + n;
    }
  }

  /** Fills one chunk, however the file hands out its bytes. */
  method ReadChunk(file: LogFile, pos: nat, len: nat) returns (chunk: seq<Byte>)
    requires pos + len <= |file.contents|
    modifies file
    ensures chunk == file.contents[pos..pos + len]
  {
    file.Seek(pos);
    chunk := [];
    while |chunk| < len
      invariant |chunk| <= len && file.offset == pos + |chunk|
      invariant chunk == file.contents[pos..pos + |chunk|]
    {
      var data := file.Read(len - |chunk|);
      if data == [] {
        break;
      }
      chunk := chunk + data;
    }
  }

  method CountIn(s: seq<Byte>) returns (count: nat)
    ensures count == CountNewlines(s, 0, |s|)
  {
    count := 0;
    for i := 0 to |s|
      invariant count + CountNewlines(s, i, |s|) == CountNewlines(s, 0, |s|)
    {
      if s[i] == NEWLINE {
        count := count + 1;
      }
    }
  }

  /** Collects chunks from the end; the cut in the middle of a chunk never happens. */
  method ReadBack(file: LogFile, n: nat) returns (buf: seq<Byte>, pos: nat)
    modifies file
    ensures pos <= |file.contents| && buf == file.contents[pos..] && |buf| <= MAX_READ
    ensures pos == 0 || CountNewlines(file.contents, pos, |file.contents|) > n || |buf| == MAX_READ
  {
    pos := |file.contents|;
    buf := [];
    var newlines := 0;
    while pos > 0 && newlines <= n && |buf| < MAX_READ
      invariant pos <= |file.contents| && buf == file.contents[pos..]
      invariant newlines == CountNewlines(file.contents, pos, |file.contents|)
      invariant pos == 0 || |buf| % CHUNK == 0
      invariant |buf| <= MAX_READ
    {
      var len := Min(CHUNK, pos);
      var chunk := ReadChunk(file, pos - len, len);
      Prepend(file.contents, pos - len, pos);
      var count := CountIn(chunk);
      CountOfSlice(file.contents, pos - len, pos, 0);
      CountSplit(file.contents, pos - len, pos, |file.contents|);
      pos := pos - len;
      if chunk == [] {
        break;
      }
      newlines := newlines + count;
      if |chunk| + |buf| > MAX_READ {
        assert false;
      }
      buf := chunk + buf;
    }
  }

  /**
   The reader. What it returns is the tail of the whole file exactly when the limit allows it,
   and otherwise the tail of the file's last mebibyte.
   */
  method ReadLocalLogTail(file: Option<LogFile>, n: nat) returns (text: seq<Byte>)
    modifies if file.Some? then {file.value} else {}
    ensures n == 0 || file.None? ==> text == []
    ensures n >= 1 && file.Some? ==> text == Answer(file.value.contents, MAX_READ, n)
  {
    if n == 0 || file.None? {
      return [];
    }
    var buf, pos := ReadBack(file.value, n);
    StoppedReaderIsRight(file.value.contents, MAX_READ, pos, n);
    LinesOfSuffix(buf, file.value.contents, pos, 0);
    var lines := LinesFrom(buf, 0);
    if lines.Nil? {
      return [];
    }
    text := Joined(LastOf(lines, n));
  }
}
