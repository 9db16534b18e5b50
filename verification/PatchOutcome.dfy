/**
 What a patch does, said without the code that does it: the text a chain of hunks makes, the plan for one file,
 where a preflight fails and where the commits stop.
 */
module PatchOutcome {
  import opened Basics
  import opened Splitting
  import opened PatchText
  import opened PatchApply
  import opened PatchGrammar
  import opened PatchBatch

  // -------------------------------------------------------------------- one edit

  /** Index by index: the new lines stand where the old ones stood, and every other line is where it was. */
  ghost predicate Replaced(lines: seq<string>, h: Hunk, start: nat, result: seq<string>) {
    && start + |h.oldLines| <= |lines|
    && |result| == |lines| - |h.oldLines| + |h.newLines|
    && (forall i :: 0 <= i < start ==> result[i] == lines[i])
    && (forall i :: 0 <= i < |h.newLines| ==> result[start + i] == h.newLines[i])
    && (forall i :: start + |h.oldLines| <= i < |lines| ==> result[i - |h.oldLines| + |h.newLines|] == lines[i])
  }

  lemma EditedMeaning(lines: seq<string>, h: Hunk, start: nat, result: seq<string>)
    requires start + |h.oldLines| <= |lines|
    ensures result == Edited(lines, h, start) <==> Replaced(lines, h, start, result)
  {
    var edited := Edited(lines, h, start);
    var shift := |h.newLines| - |h.oldLines|;
    assert forall i :: start + |h.oldLines| <= i < |lines| ==> edited[i + shift] == lines[i];
    if Replaced(lines, h, start, result) {
      forall i | 0 <= i < |result| ensures result[i] == edited[i] {
        if start <= i < start + |h.newLines| {
          assert result[start + (i - start)] == h.newLines[i - start];
        } else if i >= start + |h.newLines| {
          assert result[(i - shift) - |h.oldLines| + |h.newLines|] == lines[i - shift];
        }
      }
    }
  }

  /** The needle stands somewhere in the line. */
  ghost predicate HoldsText(line: string, needle: string) {
    exists before, after :: line == before + needle + after
  }

  lemma ContainsMeaning(line: string, needle: string)
    ensures Contains(line, needle) <==> HoldsText(line, needle)
  {
    if Contains(line, needle) {
      var i :| 0 <= i <= |line| && StandsAt(line, needle, i);
      assert line == line[..i] + needle + line[i + |needle|..];
    }
    if before, after :| line == before + needle + after {
      assert line[|before|..|before| + |needle|] == needle;
      assert StandsAt(line, needle, |before|);
    }
  }

  /** The old lines stand between these others, and the anchor in one of the lines up to their end. */
  ghost predicate StandsBetween(lines: seq<string>, h: Hunk, before: seq<string>, after: seq<string>) {
    && lines == before + h.oldLines + after
    && (h.anchor.Some? ==> exists i :: 0 <= i < |before| + |h.oldLines| && HoldsText(lines[i], h.anchor.value))
  }

  lemma AnchoredMeaning(lines: seq<string>, anchor: Option<string>, end: nat)
    requires end <= |lines|
    ensures AnchoredBefore(lines, anchor, end) <==>
              (anchor.Some? ==> exists i :: 0 <= i < end && HoldsText(lines[i], anchor.value))
  {
    if anchor.Some? {
      forall i | 0 <= i < end ensures Contains(lines[i], anchor.value) <==> HoldsText(lines[i], anchor.value) {
        ContainsMeaning(lines[i], anchor.value);
      }
    }
  }

  /** A window is a place where the hunk's old lines stand between others, anchored no later than their end. */
  lemma WindowMeaning(lines: seq<string>, h: Hunk, start: nat)
    ensures Window(lines, h, start) <==> exists before, after :: |before| == start && StandsBetween(lines, h, before, after)
  {
    var end := start + |h.oldLines|;
    if end <= |lines| {
      AnchoredMeaning(lines, h.anchor, end);
    }
    if Window(lines, h, start) {
      assert lines == lines[..start] + h.oldLines + lines[end..];
      assert StandsBetween(lines, h, lines[..start], lines[end..]);
    }
    if before, after :| |before| == start && StandsBetween(lines, h, before, after) {
      assert forall i :: 0 <= i < |h.oldLines| ==> lines[start + i] == h.oldLines[i];
    }
  }

  /** These are the text's lines: none holds a line feed, and joined they are the text but for a final line feed. */
  ghost predicate Spelled(text: string, lines: seq<string>, finalNewline: bool) {
    && AllFree(lines, '\n')
    && (lines == [] <==> text == "")
    && text == Join(lines, '\n') + (if finalNewline && lines != [] then "\n" else "")
  }

  lemma LinesSpell(text: string)
    ensures Spelled(text, LinesOf(text), EndsWithNewline(text))
  {
    SplitThenJoin(text);
    if text != "" {
      SplitIsFree(StripNewline(text), '\n');
    }
  }

  lemma SpelledOnce(text: string, lines: seq<string>)
    requires Spelled(text, lines, EndsWithNewline(text))
    ensures lines == LinesOf(text)
  {
    if text != "" {
      var body := Join(lines, '\n');
      SplitOfJoin(lines, '\n');
      if EndsWithNewline(text) {
        assert text == body + "\n";
        assert text[..|text| - 1] == body;
      } else {
        assert text == body;
      }
    }
  }

  /** The result of the hunks: a chain of unique edits of the lines, and a final line feed where there was one. */
  ghost predicate Makes(content: string, hunks: seq<Hunk>, result: string) {
    exists before, after ::
      && Spelled(content, before, EndsWithNewline(content)) && Chain(before, hunks, after)
      && result == Join(after, '\n') + (if EndsWithNewline(content) && after != [] then "\n" else "")
  }

  /** Hunks apply to a text exactly when they form a chain of unique edits of its lines, and make that chain's text. */
  lemma ApplyHunksMeaning(content: string, hunks: seq<Hunk>, result: string)
    ensures ApplyHunks(content, hunks) == Ok(result) <==> Makes(content, hunks, result)
  {
    var lines := LinesOf(content);
    HunksMeaning(lines, hunks, 1);
    LinesSpell(content);
    if before, after :|
      && Spelled(content, before, EndsWithNewline(content)) && Chain(before, hunks, after)
      && result == Join(after, '\n') + (if EndsWithNewline(content) && after != [] then "\n" else "")
    {
      SpelledOnce(content, before);
    }
  }

  // --------------------------------------------------------------- one file's plan

  /** What a plan for a file with this content must be. */
  ghost predicate Plans(p: FilePatch, current: Option<string>, plan: Planned) {
    && plan.path == p.path
    && (plan.changed <==> plan.newContent != current)
    && match p.operation
       case Add(content) => current.None? && plan.newContent == Some(content)
       case Update(hunks) =>
         current.Some? && plan.newContent.Some? && Makes(current.value, hunks, plan.newContent.value)
       case Delete => current.Some? && plan.newContent.None?
  }

  /** A file is planned exactly so: an update by its hunks, an added file as new, and a deleted one as none. */
  lemma PlanMeaning(p: FilePatch, current: Option<string>, plan: Planned)
    ensures Plan(p, current) == Ok(plan) <==> Plans(p, current, plan)
  {
    if p.operation.Update? && current.Some? && plan.newContent.Some? {
      ApplyHunksMeaning(current.value, p.operation.hunks, plan.newContent.value);
    }
    if Plan(p, current).Ok? {
      PlanChangedMeaning(p, current);
    }
  }

  /** Adding over an existing file and changing a missing one are refused, each for exactly that reason. */
  lemma PlanRefusals(p: FilePatch, current: Option<string>, path: string)
    ensures Plan(p, current) == Err(AlreadyExists(path)) <==> path == p.path && p.operation.Add? && current.Some?
    ensures Plan(p, current) == Err(NotFound(path)) <==> path == p.path && !p.operation.Add? && current.None?
  {
    if p.operation.Update? && current.Some? && ApplyHunks(current.value, p.operation.hunks).Err? {
      var k, mid := ErrorNamesFirstFailure(LinesOf(current.value), p.operation.hunks, 1);
    }
  }

  /** Any other refusal names the first hunk that has no window, or more than one. */
  lemma HunkRefusals(p: FilePatch, content: string, e: PatchError)
    requires p.operation.Update?
    ensures Plan(p, Some(content)) == Err(e) <==>
            exists k: nat, mid :: FailsAt(LinesOf(content), p.operation.hunks, k, mid, 1, e)
  {
    var lines, hunks := LinesOf(content), p.operation.hunks;
    if Plan(p, Some(content)) == Err(e) {
      var k, mid := ErrorNamesFirstFailure(lines, hunks, 1);
    }
    if k: nat, mid :| FailsAt(lines, hunks, k, mid, 1, e) {
      FirstFailureIsReported(lines, hunks, k, mid, 1, e);
    }
  }

  // ------------------------------------------------------------------- preflight

  /** What the preflight's read of file `k` finds: it is made at the k-th turn. */
  function FoundAt(w: World, h: Host, patches: seq<FilePatch>, k: nat): Loaded
    requires k < |patches|
  {
    var path := patches[k].path;
    if w(h.clock + k).readable then Read(Seen(w, path, ContentAt(h.files, path), h.clock, k + 1)) else Unreadable
  }

  /** The file was read, its plan is for what was read, and the planned content is not too large. */
  ghost predicate Ready(fits: string -> bool, p: FilePatch, found: Loaded, item: Prepared) {
    && found == Read(item.expected)
    && Plans(p, item.expected, item.plan)
    && (item.plan.newContent.Some? ==> fits(item.plan.newContent.value))
  }

  ghost predicate CanBeReady(fits: string -> bool, p: FilePatch, found: Loaded) {
    exists item :: Ready(fits, p, found, item)
  }

  lemma TryPlanMeaning(fits: string -> bool, p: FilePatch, found: Loaded, item: Prepared)
    ensures TryPlan(fits, p, found) == Some(item) <==> Ready(fits, p, found, item)
  {
    if found.Read? {
      PlanMeaning(p, found.content, item.plan);
    }
  }

  lemma TryPlanFails(fits: string -> bool, p: FilePatch, found: Loaded)
    ensures TryPlan(fits, p, found).None? <==> !CanBeReady(fits, p, found)
  {
    if TryPlan(fits, p, found).Some? {
      TryPlanMeaning(fits, p, found, TryPlan(fits, p, found).value);
    }
    if item :| Ready(fits, p, found, item) {
      TryPlanMeaning(fits, p, found, item);
    }
  }

  lemma FoundNext(w: World, h: Host, patches: seq<FilePatch>, k: nat)
    requires 0 < k < |patches|
    ensures FoundAt(w, h, patches, k) == FoundAt(w, Advance(w, h), patches[1..], k - 1)
  {
  }

  lemma FoundFirst(w: World, h: Host, patches: seq<FilePatch>)
    requires patches != []
    ensures FoundAt(w, h, patches, 0) == Load(w, h, patches[0].path).1
  {
    TurnIsOthers(w, h, patches[0].path);
  }

  /** What a preflight must come to: every file ready, or the first one that is not. */
  ghost predicate PreflightIs(
    w: World, fits: string -> bool, h: Host, patches: seq<FilePatch>, result: Result<seq<Prepared>, nat>)
  {
    match result
    case Ok(items) =>
      && |items| == |patches|
      && forall k :: 0 <= k < |patches| ==> Ready(fits, patches[k], FoundAt(w, h, patches, k), items[k])
    case Err(failed) =>
      && failed < |patches|
      && !CanBeReady(fits, patches[failed], FoundAt(w, h, patches, failed))
      && forall k :: 0 <= k < failed ==> CanBeReady(fits, patches[k], FoundAt(w, h, patches, k))
  }

  lemma PreflightOneMore(
    w: World, fits: string -> bool, h: Host, patches: seq<FilePatch>, item: Prepared, rest: Result<seq<Prepared>, nat>)
    requires patches != [] && Ready(fits, patches[0], FoundAt(w, h, patches, 0), item)
    requires PreflightIs(w, fits, Advance(w, h), patches[1..], rest)
    ensures PreflightIs(w, fits, h, patches, if rest.Err? then Err(rest.error + 1) else Ok([item] + rest.value))
  {
    var h1, tail := Advance(w, h), patches[1..];
    assert CanBeReady(fits, patches[0], FoundAt(w, h, patches, 0));
    forall k | 0 < k < |patches|
      ensures patches[k] == tail[k - 1] && FoundAt(w, h, patches, k) == FoundAt(w, h1, tail, k - 1)
    {
      FoundNext(w, h, patches, k);
    }
  }

  /**
   A preflight succeeds with exactly the plans for what each read found, or fails at exactly the first file that
   was unreadable, had no plan, or whose planned content is too large.
   */
  lemma {:induction false} PreflightMeaning(w: World, fits: string -> bool, h: Host, patches: seq<FilePatch>)
    ensures PreflightIs(w, fits, h, patches, PrepareAll(w, fits, h, patches).1)
    ensures PrepareAll(w, fits, h, patches).1.Ok? ==> PrepareAll(w, fits, h, patches).0.clock == h.clock + |patches|
    decreases |patches|
  {
    if patches != [] {
      var (h1, found) := Load(w, h, patches[0].path);
      FoundFirst(w, h, patches);
      TryPlanFails(fits, patches[0], found);
      var item := TryPlan(fits, patches[0], found);
      if item.Some? {
        TryPlanMeaning(fits, patches[0], found, item.value);
        PreflightMeaning(w, fits, h1, patches[1..]);
        PreflightOneMore(w, fits, h, patches, item.value, PrepareAll(w, fits, h1, patches[1..]).1);
      }
    }
  }

  // --------------------------------------------------------------------- commits

  /** How many of the first `k` files are to be changed; each takes one turn. */
  function Turns(items: seq<Prepared>, k: nat): nat
    requires k <= |items|
  {
    if k == 0 then 0 else Turns(items, k - 1) + (if items[k - 1].plan.changed then 1 else 0)
  }

  /** What file `k` holds when its commit arrives, as long as those before it went through. */
  function HeldAt(w: World, h: Host, items: seq<Prepared>, k: nat): Option<string>
    requires k < |items|
  {
    var path := items[k].plan.path;
    Seen(w, path, ContentAt(h.files, path), h.clock, Turns(items, k) + 1)
  }

  /** The reply to the commit of file `k`: a swap for the expected content, unless the reply is a refusal or lost. */
  function ReplyAt(w: World, h: Host, items: seq<Prepared>, k: nat): Reply
    requires k < |items|
  {
    match w(h.clock + Turns(items, k)).fate
    case Answered => if HeldAt(w, h, items, k) == items[k].expected then Acknowledged else Refused
    case Refusing => Refused
    case _ => NoReply
  }

  ghost predicate GoesThrough(w: World, h: Host, items: seq<Prepared>, k: nat)
    requires k < |items|
  {
    items[k].plan.changed ==> ReplyAt(w, h, items, k).Acknowledged?
  }

  /** Where the commits must stop: at the first changed file whose commit is not acknowledged, or nowhere. */
  ghost predicate StopIs(w: World, h: Host, items: seq<Prepared>, stop: Option<(nat, Reply)>) {
    match stop
    case None => forall k :: 0 <= k < |items| ==> GoesThrough(w, h, items, k)
    case Some((at, reply)) =>
      && at < |items| && !GoesThrough(w, h, items, at) && reply == ReplyAt(w, h, items, at)
      && forall k :: 0 <= k < at ==> GoesThrough(w, h, items, k)
  }

  lemma {:induction false} TurnsOfTail(items: seq<Prepared>, k: nat)
    requires 0 < k <= |items|
    ensures Turns(items, k) == Turns(items[1..], k - 1) + if items[0].plan.changed then 1 else 0
  {
    if k > 1 {
      TurnsOfTail(items, k - 1);
      assert items[1..][k - 2] == items[k - 1];
    }
  }

  lemma ReplyFirst(w: World, h: Host, items: seq<Prepared>)
    requires items != []
    ensures ReplyAt(w, h, items, 0) == CommitOne(w, h, items[0]).1
  {
    TurnIsOthers(w, h, items[0].plan.path);
  }

  /** Behind a file that needs no commit, or whose commit went through, the others are replied to as before. */
  lemma ReplyNext(w: World, h: Host, items: seq<Prepared>, k: nat)
    requires PathsDiffer(items) && 0 < k < |items|
    ensures
      var h1 := if items[0].plan.changed then CommitOne(w, h, items[0]).0 else h;
      ReplyAt(w, h, items, k) == ReplyAt(w, h1, items[1..], k - 1)
  {
    TurnsOfTail(items, k);
    var path := items[k].plan.path;
    assert items[0].plan.path != path && items[1..][k - 1] == items[k];
    if items[0].plan.changed {
      var h1 := CommitOne(w, h, items[0]).0;
      TurnIsOthers(w, h, path);
      assert ContentAt(h1.files, path) == ContentAt(Advance(w, h).files, path);
    }
  }

  /** Where a list of answers stops: at the first `true` in `stops`, with the reply there. */
  ghost predicate StopsAt(goes: nat -> bool, reply: nat -> Reply, n: nat, stop: Option<(nat, Reply)>) {
    match stop
    case None => forall k: nat :: k < n ==> goes(k)
    case Some((at, r)) => at < n && !goes(at) && r == reply(at) && forall k: nat :: k < at ==> goes(k)
  }

  lemma StopsOneLater(
    goes: nat -> bool, reply: nat -> Reply, goes1: nat -> bool, reply1: nat -> Reply, n: nat, rest: Option<(nat, Reply)>)
    requires goes(0) && StopsAt(goes1, reply1, n, rest)
    requires forall k: nat :: k < n ==> goes(k + 1) == goes1(k) && reply(k + 1) == reply1(k)
    ensures StopsAt(goes, reply, n + 1, if rest.None? then None else Some((rest.value.0 + 1, rest.value.1)))
  {
    forall k: nat | 0 < k < n + 1 ensures goes(k) == goes1(k - 1) && reply(k) == reply1(k - 1) {
      assert goes((k - 1) + 1) == goes1(k - 1);
    }
  }

  ghost function GoesOn(w: World, h: Host, items: seq<Prepared>): nat -> bool {
    (k: nat) => k < |items| && GoesThrough(w, h, items, k)
  }

  ghost function ReplyOn(w: World, h: Host, items: seq<Prepared>): nat -> Reply {
    (k: nat) => if k < |items| then ReplyAt(w, h, items, k) else NoReply
  }

  lemma StopIsStop(w: World, h: Host, items: seq<Prepared>, stop: Option<(nat, Reply)>)
    ensures StopIs(w, h, items, stop) <==> StopsAt(GoesOn(w, h, items), ReplyOn(w, h, items), |items|, stop)
  {
    var goes := GoesOn(w, h, items);
    assert forall k: nat :: k < |items| ==> goes(k) == GoesThrough(w, h, items, k);
  }

  lemma StopOneMore(w: World, h: Host, items: seq<Prepared>, h1: Host, rest: Option<(nat, Reply)>)
    requires items != [] && PathsDiffer(items) && GoesThrough(w, h, items, 0)
    requires h1 == if items[0].plan.changed then CommitOne(w, h, items[0]).0 else h
    requires StopIs(w, h1, items[1..], rest)
    ensures StopIs(w, h, items, if rest.None? then None else Some((rest.value.0 + 1, rest.value.1)))
  {
    var tail := items[1..];
    var goes, reply, goes1, reply1 := GoesOn(w, h, items), ReplyOn(w, h, items), GoesOn(w, h1, tail), ReplyOn(w, h1, tail);
    forall k: nat | k < |tail| ensures goes(k + 1) == goes1(k) && reply(k + 1) == reply1(k) {
      assert items[k + 1] == tail[k];
      ReplyNext(w, h, items, k + 1);
    }
    StopIsStop(w, h1, tail, rest);
    StopsOneLater(goes, reply, goes1, reply1, |tail|, rest);
    StopIsStop(w, h, items, if rest.None? then None else Some((rest.value.0 + 1, rest.value.1)));
  }

  /** Commits stop at exactly the first changed file whose compare-and-swap is not acknowledged, with its reply. */
  lemma {:induction false} CommitsStopExactly(w: World, h: Host, items: seq<Prepared>)
    requires PathsDiffer(items)
    ensures StopIs(w, h, items, CommitAll(w, h, items).1)
    decreases |items|
  {
    if items != [] {
      ReplyFirst(w, h, items);
      var h1 := if items[0].plan.changed then CommitOne(w, h, items[0]).0 else h;
      if GoesThrough(w, h, items, 0) {
        CommitsStopExactly(w, h1, items[1..]);
        StopOneMore(w, h, items, h1, CommitAll(w, h1, items[1..]).1);
      }
    }
  }

  // ------------------------------------------------------------------- end to end

  /** A world in which nobody else writes and every request is carried out and answered. */
  ghost predicate Undisturbed(w: World) {
    forall n :: w(n) == Turn(map[], true, Answered)
  }

  /** Every file of the patch has a plan for what it holds now, of no more than the permitted size. */
  ghost predicate AllPlanned(fits: string -> bool, files: Remote, patches: seq<FilePatch>, plans: seq<Planned>) {
    && |plans| == |patches|
    && forall k :: 0 <= k < |patches| ==>
         && Plans(patches[k], ContentAt(files, patches[k].path), plans[k])
         && (plans[k].newContent.Some? ==> fits(plans[k].newContent.value))
  }

  lemma UndisturbedIsQuiet(w: World, path: string, content: Option<string>, clock: nat, n: nat)
    requires Undisturbed(w)
    ensures Seen(w, path, content, clock, n) == content
  {
    assert QuietOn(w, path) by {
      forall m: nat ensures path !in w(m).edits {
        assert w(m) == Turn(map[], true, Answered);
      }
    }
    QuietIsConstant(w, path, content, clock, n);
  }

  /** Each plan together with what its file holds now. */
  function WithContents(files: Remote, patches: seq<FilePatch>, plans: seq<Planned>): (items: seq<Prepared>)
    requires |plans| == |patches|
    ensures |items| == |patches|
    ensures forall k :: 0 <= k < |items| ==> items[k] == Prepared(plans[k], ContentAt(files, patches[k].path))
  {
    seq(|patches|, k requires 0 <= k < |patches| => Prepared(plans[k], ContentAt(files, patches[k].path)))
  }

  lemma UndisturbedFile(
    w: World, fits: string -> bool, h: Host, patches: seq<FilePatch>, plans: seq<Planned>, k: nat, item: Prepared)
    requires Undisturbed(w) && AllPlanned(fits, h.files, patches, plans) && k < |patches|
    ensures Ready(fits, patches[k], FoundAt(w, h, patches, k), item) <==>
              item == Prepared(plans[k], ContentAt(h.files, patches[k].path))
  {
    var path := patches[k].path;
    assert w(h.clock + k) == Turn(map[], true, Answered);
    UndisturbedIsQuiet(w, path, ContentAt(h.files, path), h.clock, k + 1);
    PlanMeaning(patches[k], ContentAt(h.files, path), plans[k]);
    PlanMeaning(patches[k], ContentAt(h.files, path), item.plan);
  }

  lemma UndisturbedPreflight(w: World, fits: string -> bool, h: Host, patches: seq<FilePatch>, plans: seq<Planned>)
    requires Undisturbed(w) && AllPlanned(fits, h.files, patches, plans)
    ensures PrepareAll(w, fits, h, patches).1 == Ok(WithContents(h.files, patches, plans))
  {
    PreflightMeaning(w, fits, h, patches);
    var result, items := PrepareAll(w, fits, h, patches).1, WithContents(h.files, patches, plans);
    forall k | 0 <= k < |patches| ensures CanBeReady(fits, patches[k], FoundAt(w, h, patches, k)) {
      UndisturbedFile(w, fits, h, patches, plans, k, items[k]);
      assert Ready(fits, patches[k], FoundAt(w, h, patches, k), items[k]);
    }
    if result.Ok? {
      forall k | 0 <= k < |patches| ensures result.value[k] == items[k] {
        assert Ready(fits, patches[k], FoundAt(w, h, patches, k), result.value[k]);
        UndisturbedFile(w, fits, h, patches, plans, k, result.value[k]);
      }
      assert result.value == items;
    }
  }

  lemma UndisturbedCommits(w: World, h: Host, items: seq<Prepared>)
    requires Undisturbed(w) && PathsDiffer(items)
    requires forall k :: 0 <= k < |items| ==> items[k].expected == ContentAt(h.files, items[k].plan.path)
    ensures CommitAll(w, h, items).1.None?
  {
    CommitsStopExactly(w, h, items);
    forall k | 0 <= k < |items| ensures GoesThrough(w, h, items, k) {
      assert w(h.clock + Turns(items, k)) == Turn(map[], true, Answered);
      UndisturbedIsQuiet(w, items[k].plan.path, items[k].expected, h.clock, Turns(items, k) + 1);
    }
  }

  function Results(plans: seq<Planned>): seq<Status> {
    seq(|plans|, k requires 0 <= k < |plans| => if plans[k].changed then Applied else Unchanged)
  }

  lemma UndisturbedPhases(w: World, fits: string -> bool, h: Host, patches: seq<FilePatch>, plans: seq<Planned>)
    requires Undisturbed(w) && DistinctPaths(patches) && AllPlanned(fits, h.files, patches, plans)
    ensures
      var (h1, prepared) := PrepareAll(w, fits, h, patches);
      prepared.Ok? && CommitAll(w, h1, prepared.value).1.None? && DoneStatuses(prepared.value) == Results(plans)
  {
    UndisturbedPreflight(w, fits, h, patches, plans);
    var (h1, prepared) := PrepareAll(w, fits, h, patches);
    var items := prepared.value;
    PreparedArePlans(w, fits, h, patches);
    PlanPaths(patches, items);
    forall k | 0 <= k < |items| ensures items[k].expected == ContentAt(h1.files, items[k].plan.path) {
      PreflightOnlyReads(w, fits, h, patches, patches[k].path);
      UndisturbedStranger(w, h, h1, patches[k].path);
    }
    UndisturbedCommits(w, h1, items);
    assert DoneStatuses(items) == Results(plans);
  }

  lemma UndisturbedStatuses(
    w: World, fits: string -> bool, h: Host, input: string, patches: seq<FilePatch>, plans: seq<Planned>)
    requires Undisturbed(w) && PatchIs(input, patches) && AllPlanned(fits, h.files, patches, plans)
    ensures Batch(w, fits, h, input).1 == Succeeded(Results(plans))
  {
    ParserMeaning(input, patches);
    UndisturbedPhases(w, fits, h, patches, plans);
  }

  lemma UndisturbedContent(
    w: World, fits: string -> bool, h: Host, input: string, patches: seq<FilePatch>, plans: seq<Planned>, k: nat)
    requires Undisturbed(w) && PatchIs(input, patches) && AllPlanned(fits, h.files, patches, plans) && k < |patches|
    ensures ContentAt(Batch(w, fits, h, input).0.files, patches[k].path) == plans[k].newContent
  {
    var path := patches[k].path;
    forall n ensures path !in w(n).edits {
      assert w(n) == Turn(map[], true, Answered);
    }
    ParserMeaning(input, patches);
    UndisturbedStatuses(w, fits, h, input, patches, plans);
    QuietFilesOutcome(w, fits, h, input, k);
    PlanMeaning(patches[k], ContentAt(h.files, path), plans[k]);
  }

  lemma OthersChangeStrangers(w: World, fits: string -> bool, h: Host, input: string, patches: seq<FilePatch>, path: string)
    requires ParsePatch(input) == Ok(patches) && path !in PathsOf(patches)
    ensures OnlyOthers(w, h, Batch(w, fits, h, input).0, path)
  {
    BatchOutcome(w, fits, h, input);
    forall k | 0 <= k < |patches| ensures patches[k].path != path {
      assert patches[k].path in PathsOf(patches);
    }
  }

  lemma UndisturbedStranger(w: World, h: Host, h': Host, path: string)
    requires Undisturbed(w) && OnlyOthers(w, h, h', path)
    ensures ContentAt(h'.files, path) == ContentAt(h.files, path)
  {
    UndisturbedIsQuiet(w, path, ContentAt(h.files, path), h.clock, h'.clock - h.clock);
  }

  /**
   Undisturbed, a text that the grammar reads as these file patches, each with a plan of permitted size for what its
   file holds, is carried out as a whole: every file holds its planned content, and no other file changes.
   */
  lemma UndisturbedBatch(
    w: World, fits: string -> bool, h: Host, input: string, patches: seq<FilePatch>, plans: seq<Planned>)
    requires Undisturbed(w) && PatchIs(input, patches) && AllPlanned(fits, h.files, patches, plans)
    ensures
      var (h', outcome) := Batch(w, fits, h, input);
      && outcome == Succeeded(Results(plans))
      && (forall k :: 0 <= k < |patches| ==> ContentAt(h'.files, patches[k].path) == plans[k].newContent)
      && forall path :: path !in PathsOf(patches) ==> ContentAt(h'.files, path) == ContentAt(h.files, path)
  {
    ParserMeaning(input, patches);
    UndisturbedStatuses(w, fits, h, input, patches, plans);
    var h' := Batch(w, fits, h, input).0;
    forall k | 0 <= k < |patches| ensures ContentAt(h'.files, patches[k].path) == plans[k].newContent {
      UndisturbedContent(w, fits, h, input, patches, plans, k);
    }
    forall path | path !in PathsOf(patches) ensures ContentAt(h'.files, path) == ContentAt(h.files, path) {
      OthersChangeStrangers(w, fits, h, input, patches, path);
      UndisturbedStranger(w, h, h', path);
    }
  }
}
