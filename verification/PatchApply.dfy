/** Applying hunks to file contents, and planning one file's change (src/patch.rs). */
module PatchApply {
  import opened Basics
  import opened Splitting
  import opened PatchText

  // ---------------------------------------------------------------- text as lines

  function LinesOf(content: string): seq<string> {
    if content == "" then [] else Split(StripNewline(content), '\n')
  }

  function EndsWithNewline(content: string): bool {
    content != "" && content[|content| - 1] == '\n'
  }

  function TextOf(lines: seq<string>, finalNewline: bool): string {
    Join(lines, '\n') + (if finalNewline && lines != [] then "\n" else "")
  }

  /** Splitting a text into lines and joining them again is the identity. */
  lemma SplitThenJoin(content: string)
    ensures TextOf(LinesOf(content), EndsWithNewline(content)) == content
  {
    if content != "" {
      JoinOfSplit(StripNewline(content), '\n');
      if EndsWithNewline(content) {
        assert content == content[..|content| - 1] + "\n";
      }
    }
  }

  // -------------------------------------------------------------------- windows

  predicate StandsAt(line: string, needle: string, i: nat) {
    i + |needle| <= |line| && line[i..i + |needle|] == needle
  }

  predicate Contains(line: string, needle: string) {
    exists i | 0 <= i <= |line| :: StandsAt(line, needle, i)
  }

  predicate AnchoredBefore(lines: seq<string>, anchor: Option<string>, end: nat)
    requires end <= |lines|
  {
    anchor.None? || exists i | 0 <= i < end :: Contains(lines[i], anchor.value)
  }

  /** A place where the hunk's old lines stand, with its anchor no later than their end. */
  predicate Window(lines: seq<string>, h: Hunk, start: nat) {
    && start + |h.oldLines| <= |lines|
    && (forall i :: 0 <= i < |h.oldLines| ==> lines[start + i] == h.oldLines[i])
    && AnchoredBefore(lines, h.anchor, start + |h.oldLines|)
  }

  function Edited(lines: seq<string>, h: Hunk, start: nat): seq<string>
    requires start + |h.oldLines| <= |lines|
  {
    lines[..start] + h.newLines + lines[start + |h.oldLines|..]
  }

  /** The first line that contains the anchor, or the number of lines. */
  function FirstAnchor(lines: seq<string>, anchor: string): (k: nat)
    ensures k <= |lines| && (k < |lines| ==> Contains(lines[k], anchor))
    ensures forall i :: 0 <= i < k ==> !Contains(lines[i], anchor)
  {
    if lines == [] || Contains(lines[0], anchor) then 0 else 1 + FirstAnchor(lines[1..], anchor)
  }

  /** A window is anchored exactly when it ends past the first line with the anchor. */
  lemma AnchorMeaning(lines: seq<string>, anchor: string, end: nat)
    requires end <= |lines|
    ensures AnchoredBefore(lines, Some(anchor), end) <==> FirstAnchor(lines, anchor) < end
  {
    var k := FirstAnchor(lines, anchor);
    if k < end {
      assert Contains(lines[k], anchor);
    }
  }

  // ------------------------------------------------------------ what a hunk means

  ghost predicate NoWindow(lines: seq<string>, h: Hunk) {
    forall s: nat :: !Window(lines, h, s)
  }

  ghost predicate OnlyWindow(lines: seq<string>, h: Hunk, start: nat) {
    Window(lines, h, start) && forall s: nat :: Window(lines, h, s) ==> s == start
  }

  ghost predicate TwoWindows(lines: seq<string>, h: Hunk) {
    exists s: nat, t: nat :: s < t && Window(lines, h, s) && Window(lines, h, t)
  }

  /** Exactly one window, replaced; every other line verbatim. */
  ghost predicate UniqueEdit(lines: seq<string>, h: Hunk, result: seq<string>) {
    exists s: nat :: OnlyWindow(lines, h, s) && result == Edited(lines, h, s)
  }

  /** The hunks applied one after another, each by a unique edit. */
  ghost predicate Chain(lines: seq<string>, hunks: seq<Hunk>, result: seq<string>)
    decreases |hunks|
  {
    if hunks == [] then result == lines
    else exists mid :: UniqueEdit(lines, hunks[0], mid) && Chain(mid, hunks[1..], result)
  }

  // ------------------------------------------------------------------ application

  function CandidatesFrom(lines: seq<string>, h: Hunk, start: nat): seq<nat>
    decreases |lines| + 1 - start
  {
    if start + |h.oldLines| > |lines| then []
    else (if Window(lines, h, start) then [start] else []) + CandidatesFrom(lines, h, start + 1)
  }

  function ApplyHunk(lines: seq<string>, h: Hunk, number: nat): Result<seq<string>, PatchError> {
    var candidates := CandidatesFrom(lines, h, 0);
    if candidates == [] then Err(ContextNotFound(number))
    else if |candidates| == 1 then CandidateFits(lines, h, 0); Ok(Edited(lines, h, candidates[0]))
    else Err(AmbiguousContext(number))
  }

  function ApplyFrom(lines: seq<string>, hunks: seq<Hunk>, number: nat): Result<seq<string>, PatchError>
    decreases |hunks|
  {
    if hunks == [] then Ok(lines)
    else
      var step := ApplyHunk(lines, hunks[0], number);
      if step.Err? then step else ApplyFrom(step.value, hunks[1..], number + 1)
  }

  function ApplyHunks(content: string, hunks: seq<Hunk>): Result<string, PatchError> {
    var lines := ApplyFrom(LinesOf(content), hunks, 1);
    if lines.Err? then Err(lines.error) else Ok(TextOf(lines.value, EndsWithNewline(content)))
  }

  /** The candidate list holds exactly the windows from `start` on, in increasing order. */
  lemma {:induction false} CandidateFits(lines: seq<string>, h: Hunk, start: nat)
    ensures forall i :: 0 <= i < |CandidatesFrom(lines, h, start)| ==>
              Window(lines, h, CandidatesFrom(lines, h, start)[i]) && CandidatesFrom(lines, h, start)[i] >= start
    ensures forall i, j :: 0 <= i < j < |CandidatesFrom(lines, h, start)| ==>
              CandidatesFrom(lines, h, start)[i] < CandidatesFrom(lines, h, start)[j]
    ensures forall s: nat :: s >= start && Window(lines, h, s) ==> s in CandidatesFrom(lines, h, start)
    decreases |lines| + 1 - start
  {
    if start + |h.oldLines| <= |lines| {
      CandidateFits(lines, h, start + 1);
      var rest := CandidatesFrom(lines, h, start + 1);
      forall s: nat | s >= start && Window(lines, h, s) ensures s in CandidatesFrom(lines, h, start) {
        if s != start {
          assert s in rest;
        }
      }
    }
  }

  /** A hunk applies exactly when it has one window; otherwise the error says whether it had none or more. */
  lemma HunkMeaning(lines: seq<string>, h: Hunk, number: nat)
    ensures ApplyHunk(lines, h, number).Ok? ==> UniqueEdit(lines, h, ApplyHunk(lines, h, number).value)
    ensures forall result :: UniqueEdit(lines, h, result) ==> ApplyHunk(lines, h, number) == Ok(result)
    ensures ApplyHunk(lines, h, number) == Err(ContextNotFound(number)) <==> NoWindow(lines, h)
    ensures ApplyHunk(lines, h, number) == Err(AmbiguousContext(number)) <==> TwoWindows(lines, h)
  {
    var candidates := CandidatesFrom(lines, h, 0);
    CandidateFits(lines, h, 0);
    if candidates == [] {
      assert NoWindow(lines, h);
    } else if |candidates| == 1 {
      assert Window(lines, h, candidates[0]);
      forall s: nat | Window(lines, h, s) ensures s == candidates[0] {
        assert s in candidates;
      }
      assert OnlyWindow(lines, h, candidates[0]);
    } else {
      assert candidates[0] < candidates[1];
      assert Window(lines, h, candidates[0]) && Window(lines, h, candidates[1]);
    }
  }

  /** Hunks apply in turn exactly when each has one window in the lines left by those before it. */
  lemma {:induction false} HunksMeaning(lines: seq<string>, hunks: seq<Hunk>, number: nat)
    ensures ApplyFrom(lines, hunks, number).Ok? ==> Chain(lines, hunks, ApplyFrom(lines, hunks, number).value)
    ensures forall result :: Chain(lines, hunks, result) ==> ApplyFrom(lines, hunks, number) == Ok(result)
    decreases |hunks|
  {
    if hunks != [] {
      var step := ApplyHunk(lines, hunks[0], number);
      HunkMeaning(lines, hunks[0], number);
      if step.Ok? {
        HunksMeaning(step.value, hunks[1..], number + 1);
      }
      forall result | Chain(lines, hunks, result) ensures ApplyFrom(lines, hunks, number) == Ok(result) {
        var mid :| UniqueEdit(lines, hunks[0], mid) && Chain(mid, hunks[1..], result);
        assert step == Ok(mid);
      }
    }
  }

  /** The hunk at `k` is the first that fails: those before it form a chain, and it has no single window. */
  ghost predicate FailsAt(lines: seq<string>, hunks: seq<Hunk>, k: nat, mid: seq<string>, number: nat, e: PatchError) {
    && k < |hunks| && Chain(lines, hunks[..k], mid)
    && (|| (e == ContextNotFound(number + k) && NoWindow(mid, hunks[k]))
        || (e == AmbiguousContext(number + k) && TwoWindows(mid, hunks[k])))
  }

  /** An error names the first failing hunk, as missing when it has no window and ambiguous when it has several. */
  lemma {:induction false} ErrorNamesFirstFailure(lines: seq<string>, hunks: seq<Hunk>, number: nat)
    returns (k: nat, mid: seq<string>)
    requires ApplyFrom(lines, hunks, number).Err?
    ensures FailsAt(lines, hunks, k, mid, number, ApplyFrom(lines, hunks, number).error)
    decreases |hunks|
  {
    var step := ApplyHunk(lines, hunks[0], number);
    HunkMeaning(lines, hunks[0], number);
    if step.Err? {
      k, mid := 0, lines;
    } else {
      k, mid := ErrorNamesFirstFailure(step.value, hunks[1..], number + 1);
      k := k + 1;
      assert hunks[..k][1..] == hunks[1..][..k - 1] && hunks[..k][0] == hunks[0];
      assert hunks[k] == hunks[1..][k - 1];
    }
  }

  lemma ApplyFromStep(lines: seq<string>, hunks: seq<Hunk>, number: nat, next: seq<string>)
    requires hunks != [] && UniqueEdit(lines, hunks[0], next)
    ensures ApplyFrom(lines, hunks, number) == ApplyFrom(next, hunks[1..], number + 1)
  {
    HunkMeaning(lines, hunks[0], number);
  }

  lemma FailsNow(lines: seq<string>, hunks: seq<Hunk>, mid: seq<string>, number: nat, e: PatchError)
    requires FailsAt(lines, hunks, 0, mid, number, e)
    ensures ApplyFrom(lines, hunks, number) == Err(e)
  {
    assert hunks[..0] == [];
    HunkMeaning(lines, hunks[0], number);
  }

  lemma FailsLater(lines: seq<string>, hunks: seq<Hunk>, k: nat, mid: seq<string>, number: nat, e: PatchError)
    returns (next: seq<string>)
    requires k > 0 && FailsAt(lines, hunks, k, mid, number, e)
    ensures UniqueEdit(lines, hunks[0], next) && FailsAt(next, hunks[1..], k - 1, mid, number + 1, e)
  {
    next :| UniqueEdit(lines, hunks[..k][0], next) && Chain(next, hunks[..k][1..], mid);
    assert hunks[..k][1..] == hunks[1..][..k - 1];
  }

  /** Conversely, a failing hunk after a chain is exactly what the result reports. */
  lemma {:induction false} FirstFailureIsReported(
    lines: seq<string>, hunks: seq<Hunk>, k: nat, mid: seq<string>, number: nat, e: PatchError)
    requires FailsAt(lines, hunks, k, mid, number, e)
    ensures ApplyFrom(lines, hunks, number) == Err(e)
    decreases k
  {
    if k == 0 {
      FailsNow(lines, hunks, mid, number, e);
    } else {
      var next := FailsLater(lines, hunks, k, mid, number, e);
      FirstFailureIsReported(next, hunks[1..], k - 1, mid, number + 1, e);
      ApplyFromStep(lines, hunks, number, next);
    }
  }

  // ------------------------------------------------------------------- the loops

  /** The search for windows, in increasing order of start. */
  method FindCandidates(lines: seq<string>, h: Hunk) returns (candidates: seq<nat>)
    ensures candidates == CandidatesFrom(lines, h, 0)
  {
    candidates := [];
    if |h.oldLines| <= |lines| {
      var last := |lines| - |h.oldLines|;
      var start := 0;
      while start <= last
        invariant 0 <= start <= last + 1
        invariant CandidatesFrom(lines, h, 0) == candidates + CandidatesFrom(lines, h, start)
      {
        ghost var before, rest := candidates, CandidatesFrom(lines, h, start + 1);
        if Window(lines, h, start) {
          candidates := candidates + [start];
          assert before + ([start] + rest) == candidates + rest;
        } else {
          assert [] + rest == rest;
        }
        start := start + 1;
      }
      assert candidates + [] == candidates;
    }
  }

  method ApplyHunksLoop(content: string, hunks: seq<Hunk>) returns (r: Result<string, PatchError>)
    ensures r == ApplyHunks(content, hunks)
  {
    var lines := LinesOf(content);
    var i := 0;
    assert hunks[0..] == hunks;
    while i < |hunks|
      invariant 0 <= i <= |hunks|
      invariant ApplyFrom(LinesOf(content), hunks, 1) == ApplyFrom(lines, hunks[i..], i + 1)
    {
      var h := hunks[i];
      assert hunks[i..][0] == h && hunks[i..][1..] == hunks[i + 1..];
      var candidates := FindCandidates(lines, h);
      if candidates == [] {
        return Err(ContextNotFound(i + 1));
      }
      if |candidates| > 1 {
        return Err(AmbiguousContext(i + 1));
      }
      CandidateFits(lines, h, 0);
      var start := candidates[0];
      lines := lines[..start] + h.newLines + lines[start + |h.oldLines|..];
      i := i + 1;
    }
    r := Ok(TextOf(lines, EndsWithNewline(content)));
  }

  // -------------------------------------------------------------------- planning

  datatype Planned = Planned(path: string, newContent: Option<string>, changed: bool)

  function Plan(p: FilePatch, current: Option<string>): Result<Planned, PatchError> {
    match p.operation
    case Add(content) =>
      if current.Some? then Err(AlreadyExists(p.path)) else Ok(Planned(p.path, Some(content), true))
    case Update(hunks) =>
      if current.None? then Err(NotFound(p.path))
      else
        var updated := ApplyHunks(current.value, hunks);
        if updated.Err? then Err(updated.error)
        else Ok(Planned(p.path, Some(updated.value), updated.value != current.value))
    case Delete =>
      if current.None? then Err(NotFound(p.path)) else Ok(Planned(p.path, None, true))
  }

  /** A plan is marked changed exactly when it would leave the file different. */
  lemma PlanChangedMeaning(p: FilePatch, current: Option<string>)
    requires Plan(p, current).Ok?
    ensures Plan(p, current).value.path == p.path
    ensures Plan(p, current).value.changed <==> Plan(p, current).value.newContent != current
  {
  }
}
