/**
 Applying a whole patch: plan every file first, then commit them one by one
 (src/server/handlers/apply_patch.rs). A remote commit is a compare-and-swap on one
 file; other writers may change files between any two requests, and an
 acknowledgement may be lost before or after the commit took effect.
 */
module PatchBatch {
  import opened Basics
  import opened PatchText
  import opened PatchParser
  import opened PatchRoundTrip
  import opened PatchApply

  type Remote = map<string, string>

  datatype Fate = Answered | Refusing | LostAfter | LostBefore

  /** What others write before our next request, whether that request could read a file, and what becomes of a commit. */
  datatype Turn = Turn(edits: map<string, Option<string>>, readable: bool, fate: Fate)

  type World = nat -> Turn

  datatype Host = Host(files: Remote, clock: nat)

  datatype Reply = Acknowledged | Refused | NoReply

  datatype Status = NotAttempted | Unchanged | Applied | Failed | Unknown

  /** What a load of a remote file found; `None` is a missing file. */
  datatype Loaded = Unreadable | Read(content: Option<string>)

  datatype Prepared = Prepared(plan: Planned, expected: Option<string>)

  datatype Phase = Preflight | Commit

  datatype Outcome =
    | BadPatch(error: PatchError)
    | Succeeded(statuses: seq<Status>)
    | Stopped(phase: Phase, index: nat, statuses: seq<Status>)

  // ---------------------------------------------------------------- remote files

  function ContentAt(files: Remote, path: string): Option<string> {
    if path in files then Some(files[path]) else None
  }

  function Store(files: Remote, path: string, content: Option<string>): (r: Remote)
    ensures forall p :: ContentAt(r, p) == if p == path then content else ContentAt(files, p)
  {
    if content.Some? then files[path := content.value] else files - {path}
  }

  /** Others' writes take effect. */
  function WithEdits(files: Remote, edits: map<string, Option<string>>): (r: Remote)
    ensures forall p :: ContentAt(r, p) == if p in edits then edits[p] else ContentAt(files, p)
  {
    map p | p in files.Keys + edits.Keys && (p in edits ==> edits[p].Some?)
      :: if p in edits then edits[p].value else files[p]
  }

  function Advance(w: World, h: Host): Host {
    Host(WithEdits(h.files, w(h.clock).edits), h.clock + 1)
  }

  function Load(w: World, h: Host, path: string): (Host, Loaded) {
    var h1 := Advance(w, h);
    (h1, if w(h.clock).readable then Read(ContentAt(h1.files, path)) else Unreadable)
  }

  /** The compare-and-swap: it takes effect only on the expected content. */
  function CommitOne(w: World, h: Host, item: Prepared): (Host, Reply) {
    var h1 := Advance(w, h);
    var fate := w(h.clock).fate;
    var path := item.plan.path;
    var matches := ContentAt(h1.files, path) == item.expected;
    var h2 := Host(Store(h1.files, path, item.plan.newContent), h1.clock);
    match fate
    case Answered => if matches then (h2, Acknowledged) else (h1, Refused)
    case Refusing => (h1, Refused)
    case LostAfter => (if matches then h2 else h1, NoReply)
    case LostBefore => (h1, NoReply)
  }

  // ------------------------------------------------------------------ preflight

  /** The plan for a snapshot, unless there is none, it fails or its result is too large. */
  function TryPlan(fits: string -> bool, p: FilePatch, snapshot: Loaded): Option<Prepared> {
    if snapshot.Unreadable? then None
    else
      var plan := Plan(p, snapshot.content);
      if plan.Err? || (plan.value.newContent.Some? && !fits(plan.value.newContent.value)) then None
      else Some(Prepared(plan.value, snapshot.content))
  }

  /** Snapshots and plans for all files, or the index of the first that cannot be planned. */
  function PrepareAll(w: World, fits: string -> bool, h: Host, patches: seq<FilePatch>)
    : (Host, Result<seq<Prepared>, nat>)
    decreases |patches|
  {
    if patches == [] then (h, Ok([]))
    else
      var (h1, snapshot) := Load(w, h, patches[0].path);
      var item := TryPlan(fits, patches[0], snapshot);
      if item.None? then (h1, Err(0))
      else
        var (h2, rest) := PrepareAll(w, fits, h1, patches[1..]);
        (h2, if rest.Err? then Err(rest.error + 1) else Ok([item.value] + rest.value))
  }

  // --------------------------------------------------------------------- commits

  /** Commits in order, skipping unchanged files; stops at the first reply that is not an acknowledgement. */
  function CommitAll(w: World, h: Host, items: seq<Prepared>): (Host, Option<(nat, Reply)>)
    decreases |items|
  {
    if items == [] then (h, None)
    else if !items[0].plan.changed then Bump(CommitAll(w, h, items[1..]))
    else
      var (h1, reply) := CommitOne(w, h, items[0]);
      if !reply.Acknowledged? then (h1, Some((0, reply))) else Bump(CommitAll(w, h1, items[1..]))
  }

  function Bump(r: (Host, Option<(nat, Reply)>)): (Host, Option<(nat, Reply)>) {
    (r.0, if r.1.None? then None else Some((r.1.value.0 + 1, r.1.value.1)))
  }

  function StatusOf(item: Prepared): Status {
    if item.plan.changed then Applied else Unchanged
  }

  function FailureStatus(reply: Reply): Status {
    if reply.NoReply? then Unknown else Failed
  }

  function DoneStatuses(items: seq<Prepared>): seq<Status> {
    seq(|items|, i requires 0 <= i < |items| => StatusOf(items[i]))
  }

  function Untried(n: nat): seq<Status> {
    seq(n, _ => NotAttempted)
  }

  /** The whole tool call. */
  function Batch(w: World, fits: string -> bool, h: Host, input: string): (Host, Outcome) {
    var parsed := ParsePatch(input);
    if parsed.Err? then (h, BadPatch(parsed.error))
    else
      var (h1, prepared) := PrepareAll(w, fits, h, parsed.value);
      if prepared.Err? then
        PrepareFailsInRange(w, fits, h, parsed.value);
        (h1, Stopped(Preflight, prepared.error, Untried(|parsed.value|)[prepared.error := Failed]))
      else
        var (h2, stop) := CommitAll(w, h1, prepared.value);
        CommitStopsInRange(w, h1, prepared.value);
        (h2, CommitOutcome(prepared.value, stop))
  }

  lemma {:induction false} PrepareFailsInRange(w: World, fits: string -> bool, h: Host, patches: seq<FilePatch>)
    ensures PrepareAll(w, fits, h, patches).1.Err? ==> PrepareAll(w, fits, h, patches).1.error < |patches|
    decreases |patches|
  {
    if patches != [] {
      PrepareFailsInRange(w, fits, Load(w, h, patches[0].path).0, patches[1..]);
    }
  }

  lemma {:induction false} CommitStopsInRange(w: World, h: Host, items: seq<Prepared>)
    ensures CommitAll(w, h, items).1.Some? ==> CommitAll(w, h, items).1.value.0 < |items|
    decreases |items|
  {
    if items != [] {
      CommitStopsInRange(w, h, items[1..]);
      CommitStopsInRange(w, CommitOne(w, h, items[0]).0, items[1..]);
    }
  }

  // ------------------------------------------------------------ plans and snapshots

  ghost predicate PathsDiffer(items: seq<Prepared>) {
    forall i, j :: 0 <= i < j < |items| ==> items[i].plan.path != items[j].plan.path
  }

  /** Item by item, the plan is the patch's own plan for the snapshot that will be compared. */
  ghost predicate PlansOf(patches: seq<FilePatch>, items: seq<Prepared>) {
    && |items| == |patches|
    && forall i :: 0 <= i < |items| ==> Plan(patches[i], items[i].expected) == Ok(items[i].plan)
  }

  lemma {:induction false} PreparedArePlans(w: World, fits: string -> bool, h: Host, patches: seq<FilePatch>)
    requires PrepareAll(w, fits, h, patches).1.Ok?
    ensures PlansOf(patches, PrepareAll(w, fits, h, patches).1.value)
    decreases |patches|
  {
    if patches != [] {
      PreparedArePlans(w, fits, Load(w, h, patches[0].path).0, patches[1..]);
    }
  }

  lemma PlanPaths(patches: seq<FilePatch>, items: seq<Prepared>)
    requires PlansOf(patches, items)
    ensures forall i :: 0 <= i < |items| ==> items[i].plan.path == patches[i].path
    ensures forall i :: 0 <= i < |items| ==> (items[i].plan.changed <==> items[i].plan.newContent != items[i].expected)
    ensures DistinctPaths(patches) ==> PathsDiffer(items)
  {
    forall i | 0 <= i < |items|
      ensures items[i].plan.path == patches[i].path
      ensures items[i].plan.changed <==> items[i].plan.newContent != items[i].expected
    {
      PlanChangedMeaning(patches[i], items[i].expected);
    }
  }

  // -------------------------------------------------------------- one file over time

  /** What a file holds after `n` turns in which only others write, starting from `content`. */
  function Seen(w: World, path: string, content: Option<string>, clock: nat, n: nat): Option<string>
    decreases n
  {
    if n == 0 then content
    else
      var edits := w(clock).edits;
      Seen(w, path, if path in edits then edits[path] else content, clock + 1, n - 1)
  }

  lemma {:induction false} SeenConcat(w: World, path: string, content: Option<string>, clock: nat, m: nat, n: nat)
    ensures Seen(w, path, Seen(w, path, content, clock, m), clock + m, n) == Seen(w, path, content, clock, m + n)
    decreases m
  {
    if m > 0 {
      var edits := w(clock).edits;
      SeenConcat(w, path, if path in edits then edits[path] else content, clock + 1, m - 1, n);
    }
  }

  /** Between two moments the file changed only by others' hands. */
  ghost predicate OnlyOthers(w: World, h: Host, h': Host, path: string) {
    && h'.clock >= h.clock
    && ContentAt(h'.files, path) == Seen(w, path, ContentAt(h.files, path), h.clock, h'.clock - h.clock)
  }

  /** At turn `t` the file held the expected content and was given the new one; otherwise only others wrote. */
  ghost predicate SwappedAt(w: World, h: Host, h': Host, path: string, expected: Option<string>, content: Option<string>, t: nat) {
    && h.clock < t <= h'.clock
    && Seen(w, path, ContentAt(h.files, path), h.clock, t - h.clock) == expected
    && ContentAt(h'.files, path) == Seen(w, path, content, t, h'.clock - t)
  }

  ghost predicate Swapped(w: World, h: Host, h': Host, item: Prepared) {
    exists t: nat :: SwappedAt(w, h, h', item.plan.path, item.expected, item.plan.newContent, t)
  }

  lemma TurnIsOthers(w: World, h: Host, path: string)
    ensures OnlyOthers(w, h, Advance(w, h), path)
    ensures ContentAt(Advance(w, h).files, path) == Seen(w, path, ContentAt(h.files, path), h.clock, 1)
  {
  }

  lemma OthersThenOthers(w: World, h: Host, h1: Host, h': Host, path: string)
    requires OnlyOthers(w, h, h1, path) && OnlyOthers(w, h1, h', path)
    ensures OnlyOthers(w, h, h', path)
  {
    SeenConcat(w, path, ContentAt(h.files, path), h.clock, h1.clock - h.clock, h'.clock - h1.clock);
  }

  lemma OthersThenSwap(
    w: World, h: Host, h1: Host, h': Host, path: string, expected: Option<string>, content: Option<string>, t: nat)
    requires OnlyOthers(w, h, h1, path) && SwappedAt(w, h1, h', path, expected, content, t)
    ensures SwappedAt(w, h, h', path, expected, content, t)
  {
    SeenConcat(w, path, ContentAt(h.files, path), h.clock, h1.clock - h.clock, t - h1.clock);
  }

  // ------------------------------------------------------- the phases, whoever else writes

  /** A preflight, successful or not, writes nothing at all. */
  lemma {:induction false} PreflightOnlyReads(w: World, fits: string -> bool, h: Host, patches: seq<FilePatch>, path: string)
    ensures OnlyOthers(w, h, PrepareAll(w, fits, h, patches).0, path)
    decreases |patches|
  {
    if patches != [] {
      TurnIsOthers(w, h, path);
      PreflightOnlyReads(w, fits, Advance(w, h), patches[1..], path);
      OthersThenOthers(w, h, Advance(w, h), PrepareAll(w, fits, Advance(w, h), patches[1..]).0, path);
    }
  }

  /** At turn `s`, during the preflight, the file held what its plan expects. */
  ghost predicate SnapshotAt(w: World, h: Host, h': Host, path: string, expected: Option<string>, s: nat) {
    && h.clock < s <= h'.clock
    && Seen(w, path, ContentAt(h.files, path), h.clock, s - h.clock) == expected
  }

  lemma FirstSnapshot(w: World, fits: string -> bool, h: Host, patches: seq<FilePatch>)
    requires patches != [] && PrepareAll(w, fits, h, patches).1.Ok?
    ensures |PrepareAll(w, fits, h, patches).1.value| > 0
    ensures SnapshotAt(w, h, PrepareAll(w, fits, h, patches).0, patches[0].path,
                       PrepareAll(w, fits, h, patches).1.value[0].expected, h.clock + 1)
  {
    var h1 := Advance(w, h);
    TurnIsOthers(w, h, patches[0].path);
    PreflightOnlyReads(w, fits, h1, patches[1..], patches[0].path);
  }

  lemma LaterSnapshot(w: World, h: Host, h': Host, path: string, expected: Option<string>, s: nat)
    requires SnapshotAt(w, Advance(w, h), h', path, expected, s)
    ensures SnapshotAt(w, h, h', path, expected, s)
  {
    TurnIsOthers(w, h, path);
    SeenConcat(w, path, ContentAt(h.files, path), h.clock, 1, s - h.clock - 1);
  }

  /** Every plan was made for what its file held at some moment of the preflight. */
  lemma {:induction false} SnapshotWasTaken(w: World, fits: string -> bool, h: Host, patches: seq<FilePatch>, k: nat)
    returns (s: nat)
    requires PrepareAll(w, fits, h, patches).1.Ok? && k < |patches|
    ensures |PrepareAll(w, fits, h, patches).1.value| > k
    ensures SnapshotAt(w, h, PrepareAll(w, fits, h, patches).0, patches[k].path,
                       PrepareAll(w, fits, h, patches).1.value[k].expected, s)
    decreases |patches|
  {
    if k == 0 {
      FirstSnapshot(w, fits, h, patches);
      s := h.clock + 1;
    } else {
      var h1, rest := Advance(w, h), patches[1..];
      s := SnapshotWasTaken(w, fits, h1, rest, k - 1);
      var (h', prepared) := PrepareAll(w, fits, h1, rest);
      LaterSnapshot(w, h, h', patches[k].path, prepared.value[k - 1].expected, s);
    }
  }

  /** A file outside the attempted commits changes only by others' hands. */
  lemma {:induction false} CommitsTouchOnlyAttempted(w: World, h: Host, items: seq<Prepared>, path: string)
    requires
      var stop := CommitAll(w, h, items).1;
      forall i :: 0 <= i < |items| && (stop.Some? ==> i <= stop.value.0) ==> items[i].plan.path != path
    ensures OnlyOthers(w, h, CommitAll(w, h, items).0, path)
    decreases |items|
  {
    if items != [] {
      assert items[0].plan.path != path;
      if !items[0].plan.changed {
        CommitsTouchOnlyAttempted(w, h, items[1..], path);
      } else {
        var (h1, reply) := CommitOne(w, h, items[0]);
        TurnIsOthers(w, h, path);
        assert OnlyOthers(w, h, h1, path);
        if reply.Acknowledged? {
          CommitsTouchOnlyAttempted(w, h1, items[1..], path);
          OthersThenOthers(w, h, h1, CommitAll(w, h1, items[1..]).0, path);
        }
      }
    }
  }

  /** What became of a file that was planned, given where the commits stopped. */
  ghost predicate CommitFate(w: World, h: Host, h': Host, items: seq<Prepared>, stop: Option<(nat, Reply)>, k: nat)
    requires k < |items|
  {
    var path := items[k].plan.path;
    if !items[k].plan.changed || (stop.Some? && k > stop.value.0) then OnlyOthers(w, h, h', path)
    else if stop.None? || k < stop.value.0 then Swapped(w, h, h', items[k])
    else
      && !stop.value.1.Acknowledged?
      && (OnlyOthers(w, h, h', path) || (stop.value.1.NoReply? && Swapped(w, h, h', items[k])))
  }

  /** One commit: its reply tells whether the file was swapped, from what it held at that very moment. */
  lemma CommitOneFate(w: World, h: Host, item: Prepared)
    ensures
      var (h1, reply) := CommitOne(w, h, item);
      var path := item.plan.path;
      && h1.clock == h.clock + 1
      && (reply.Acknowledged? ==>
            SwappedAt(w, h, h1, path, item.expected, item.plan.newContent, h1.clock)
            && ContentAt(h1.files, path) == item.plan.newContent)
      && (reply.Refused? ==> OnlyOthers(w, h, h1, path))
      && (reply.NoReply? ==>
            || OnlyOthers(w, h, h1, path)
            || SwappedAt(w, h, h1, path, item.expected, item.plan.newContent, h1.clock))
  {
    TurnIsOthers(w, h, item.plan.path);
  }

  lemma FirstFate(w: World, h: Host, items: seq<Prepared>)
    requires items != [] && PathsDiffer(items)
    ensures CommitFate(w, h, CommitAll(w, h, items).0, items, CommitAll(w, h, items).1, 0)
  {
    var item, path := items[0], items[0].plan.path;
    var (h', stop) := CommitAll(w, h, items);
    CommitOneFate(w, h, item);
    var (h1, reply) := CommitOne(w, h, item);
    if !item.plan.changed {
      CommitsTouchOnlyAttempted(w, h, items[1..], path);
    } else if reply.Acknowledged? {
      CommitsTouchOnlyAttempted(w, h1, items[1..], path);
      assert SwappedAt(w, h, h', path, item.expected, item.plan.newContent, h1.clock);
    }
  }

  /** Whoever else writes, every planned file met the fate that the stop, or its absence, says. */
  lemma {:induction false} CommitsMeanWhatTheySay(w: World, h: Host, items: seq<Prepared>, k: nat)
    requires PathsDiffer(items) && k < |items|
    ensures CommitFate(w, h, CommitAll(w, h, items).0, items, CommitAll(w, h, items).1, k)
    decreases |items|
  {
    if k == 0 {
      FirstFate(w, h, items);
    } else {
      var rest, path := items[1..], items[k].plan.path;
      assert rest[k - 1] == items[k] && items[0].plan.path != path;
      if !items[0].plan.changed {
        CommitsMeanWhatTheySay(w, h, rest, k - 1);
      } else {
        var (h1, reply) := CommitOne(w, h, items[0]);
        TurnIsOthers(w, h, path);
        assert OnlyOthers(w, h, h1, path);
        if reply.Acknowledged? {
          CommitsMeanWhatTheySay(w, h1, rest, k - 1);
          var (h', stop) := CommitAll(w, h1, rest);
          FateCarriesOver(w, h, h1, h', items[k]);
        }
      }
    }
  }

  lemma FateCarriesOver(w: World, h: Host, h1: Host, h': Host, item: Prepared)
    requires OnlyOthers(w, h, h1, item.plan.path)
    ensures OnlyOthers(w, h1, h', item.plan.path) ==> OnlyOthers(w, h, h', item.plan.path)
    ensures Swapped(w, h1, h', item) ==> Swapped(w, h, h', item)
  {
    if OnlyOthers(w, h1, h', item.plan.path) {
      OthersThenOthers(w, h, h1, h', item.plan.path);
    }
    if Swapped(w, h1, h', item) {
      var t: nat :| SwappedAt(w, h1, h', item.plan.path, item.expected, item.plan.newContent, t);
      OthersThenSwap(w, h, h1, h', item.plan.path, item.expected, item.plan.newContent, t);
    }
  }

  // ---------------------------------------------------------------- the whole call

  function CommitOutcome(items: seq<Prepared>, stop: Option<(nat, Reply)>): Outcome
    requires stop.Some? ==> stop.value.0 < |items|
  {
    if stop.None? then Succeeded(DoneStatuses(items))
    else
      var (i, reply) := stop.value;
      Stopped(Commit, i, DoneStatuses(items[..i]) + [FailureStatus(reply)] + Untried(|items| - i - 1))
  }

  /**
   The patch was planned for what the file held at turn `s`. If it was carried out, that happened at a
   later turn at which the file held the same content again, and before and after it only others wrote.
   */
  ghost predicate CarriedOut(w: World, h: Host, h': Host, p: FilePatch, s: nat, t: nat) {
    && h.clock < s < t <= h'.clock
    && var snapshot := Seen(w, p.path, ContentAt(h.files, p.path), h.clock, s - h.clock);
       && Plan(p, snapshot).Ok? && Plan(p, snapshot).value.changed
       && SwappedAt(w, h, h', p.path, snapshot, Plan(p, snapshot).value.newContent, t)
  }

  ghost predicate PlannedAsIs(w: World, h: Host, h': Host, p: FilePatch, s: nat) {
    && h.clock < s <= h'.clock
    && var snapshot := Seen(w, p.path, ContentAt(h.files, p.path), h.clock, s - h.clock);
       Plan(p, snapshot).Ok? && !Plan(p, snapshot).value.changed
  }

  /** What a reported status means, in a world in which anybody may write at any time. */
  ghost predicate FileFate(w: World, h: Host, h': Host, p: FilePatch, status: Status) {
    match status
    case NotAttempted => OnlyOthers(w, h, h', p.path)
    case Failed => OnlyOthers(w, h, h', p.path)
    case Unchanged => OnlyOthers(w, h, h', p.path) && exists s: nat :: PlannedAsIs(w, h, h', p, s)
    case Applied => exists s: nat, t: nat :: CarriedOut(w, h, h', p, s, t)
    case Unknown => OnlyOthers(w, h, h', p.path) || exists s: nat, t: nat :: CarriedOut(w, h, h', p, s, t)
  }

  ghost predicate AllFates(w: World, h: Host, h': Host, patches: seq<FilePatch>, statuses: seq<Status>) {
    && |statuses| == |patches|
    && forall i :: 0 <= i < |patches| ==> FileFate(w, h, h', patches[i], statuses[i])
  }

  /** Which statuses an outcome may carry. */
  ghost predicate WellReported(outcome: Outcome) {
    match outcome
    case BadPatch(_) => true
    case Succeeded(statuses) => forall i :: 0 <= i < |statuses| ==> statuses[i] == Applied || statuses[i] == Unchanged
    case Stopped(Preflight, index, statuses) =>
      && index < |statuses| && statuses[index] == Failed
      && forall i :: 0 <= i < |statuses| && i != index ==> statuses[i] == NotAttempted
    case Stopped(Commit, index, statuses) =>
      && index < |statuses| && (statuses[index] == Failed || statuses[index] == Unknown)
      && (forall i :: 0 <= i < index ==> statuses[i] == Applied || statuses[i] == Unchanged)
      && (forall i :: index < i < |statuses| ==> statuses[i] == NotAttempted)
  }

  function StatusesOf(outcome: Outcome): seq<Status> {
    if outcome.BadPatch? then [] else outcome.statuses
  }

  lemma FateIsReported(w: World, h: Host, h1: Host, h': Host, p: FilePatch, item: Prepared, s: nat, status: Status)
    requires Plan(p, item.expected) == Ok(item.plan) && item.plan.path == p.path
    requires SnapshotAt(w, h, h1, p.path, item.expected, s) && OnlyOthers(w, h, h1, p.path) && h1.clock <= h'.clock
    requires status == NotAttempted || status == Failed ==> OnlyOthers(w, h1, h', p.path)
    requires status == Unchanged ==> !item.plan.changed && OnlyOthers(w, h1, h', p.path)
    requires status == Applied ==> item.plan.changed && Swapped(w, h1, h', item)
    requires status == Unknown ==> item.plan.changed && (OnlyOthers(w, h1, h', p.path) || Swapped(w, h1, h', item))
    ensures FileFate(w, h, h', p, status)
  {
    FateCarriesOver(w, h, h1, h', item);
    if status == Unchanged {
      assert PlannedAsIs(w, h, h', p, s);
    }
    if Swapped(w, h1, h', item) && item.plan.changed {
      var t: nat :| SwappedAt(w, h1, h', p.path, item.expected, item.plan.newContent, t);
      OthersThenSwap(w, h, h1, h', p.path, item.expected, item.plan.newContent, t);
      assert CarriedOut(w, h, h', p, s, t);
    }
  }

  /** The status a file gets, by where the commits stopped. */
  function StatusAt(items: seq<Prepared>, stop: Option<(nat, Reply)>, k: nat): Status
    requires k < |items|
  {
    if stop.None? || k < stop.value.0 then StatusOf(items[k])
    else if k == stop.value.0 then FailureStatus(stop.value.1)
    else NotAttempted
  }

  lemma OneFileOutcome(w: World, fits: string -> bool, h: Host, patches: seq<FilePatch>, k: nat)
    requires DistinctPaths(patches) && PrepareAll(w, fits, h, patches).1.Ok? && k < |patches|
    ensures
      var (h1, prepared) := PrepareAll(w, fits, h, patches);
      var (h', stop) := CommitAll(w, h1, prepared.value);
      |prepared.value| == |patches| && FileFate(w, h, h', patches[k], StatusAt(prepared.value, stop, k))
  {
    var (h1, prepared) := PrepareAll(w, fits, h, patches);
    var items := prepared.value;
    var (h', stop) := CommitAll(w, h1, items);
    PreparedArePlans(w, fits, h, patches);
    PlanPaths(patches, items);
    var s := SnapshotWasTaken(w, fits, h, patches, k);
    PreflightOnlyReads(w, fits, h, patches, patches[k].path);
    CommitsMeanWhatTheySay(w, h1, items, k);
    ClockAdvances(w, h1, items);
    CommitStopIsUnacknowledged(w, h1, items);
    FateIsReported(w, h, h1, h', patches[k], items[k], s, StatusAt(items, stop, k));
  }

  lemma CommitPhaseOutcome(w: World, fits: string -> bool, h: Host, patches: seq<FilePatch>)
    requires DistinctPaths(patches) && PrepareAll(w, fits, h, patches).1.Ok?
    ensures
      var (h1, prepared) := PrepareAll(w, fits, h, patches);
      var (h', stop) := CommitAll(w, h1, prepared.value);
      && (stop.Some? ==> stop.value.0 < |prepared.value|)
      && WellReported(CommitOutcome(prepared.value, stop))
      && AllFates(w, h, h', patches, StatusesOf(CommitOutcome(prepared.value, stop)))
  {
    var (h1, prepared) := PrepareAll(w, fits, h, patches);
    var items := prepared.value;
    var (h', stop) := CommitAll(w, h1, items);
    PreparedArePlans(w, fits, h, patches);
    CommitStopIsUnacknowledged(w, h1, items);
    StatusesAreReported(items, stop);
    forall k | 0 <= k < |patches| ensures FileFate(w, h, h', patches[k], StatusAt(items, stop, k)) {
      OneFileOutcome(w, fits, h, patches, k);
    }
  }

  lemma {:induction false} ClockAdvances(w: World, h: Host, items: seq<Prepared>)
    ensures CommitAll(w, h, items).0.clock >= h.clock
    decreases |items|
  {
    if items != [] {
      ClockAdvances(w, h, items[1..]);
      ClockAdvances(w, CommitOne(w, h, items[0]).0, items[1..]);
    }
  }

  lemma {:induction false} CommitStopIsUnacknowledged(w: World, h: Host, items: seq<Prepared>)
    ensures
      var stop := CommitAll(w, h, items).1;
      stop.Some? ==> stop.value.0 < |items| && items[stop.value.0].plan.changed && !stop.value.1.Acknowledged?
    decreases |items|
  {
    if items != [] {
      CommitStopIsUnacknowledged(w, h, items[1..]);
      CommitStopIsUnacknowledged(w, CommitOne(w, h, items[0]).0, items[1..]);
    }
  }

  lemma StatusesAreReported(items: seq<Prepared>, stop: Option<(nat, Reply)>)
    requires stop.Some? ==> stop.value.0 < |items| && !stop.value.1.Acknowledged?
    ensures
      var statuses := StatusesOf(CommitOutcome(items, stop));
      && |statuses| == |items|
      && (forall k :: 0 <= k < |items| ==> statuses[k] == StatusAt(items, stop, k))
    ensures WellReported(CommitOutcome(items, stop))
  {
  }

  /**
   Whatever anybody else writes at any time: every reported status is true of its file. A file reported
   applied was swapped at a moment at which it held exactly the content its plan was made for; a file
   reported failed, unchanged or not attempted changed only by others' hands; a file reported unknown is
   one or the other; and no other file is touched.
   */
  lemma BatchOutcome(w: World, fits: string -> bool, h: Host, input: string)
    ensures
      var (h', outcome) := Batch(w, fits, h, input);
      var patches := if ParsePatch(input).Ok? then ParsePatch(input).value else [];
      && (outcome.BadPatch? <==> ParsePatch(input).Err?)
      && (outcome.BadPatch? ==> h' == h)
      && WellReported(outcome)
      && AllFates(w, h, h', patches, StatusesOf(outcome))
      && forall path :: (forall i :: 0 <= i < |patches| ==> patches[i].path != path) ==> OnlyOthers(w, h, h', path)
  {
    var (h', outcome) := Batch(w, fits, h, input);
    if ParsePatch(input).Ok? {
      var patches := ParsePatch(input).value;
      ParsedIsWellFormed(input);
      PrepareFailsInRange(w, fits, h, patches);
      var (h1, prepared) := PrepareAll(w, fits, h, patches);
      forall path ensures OnlyOthers(w, h, h1, path) {
        PreflightOnlyReads(w, fits, h, patches, path);
      }
      if prepared.Ok? {
        CommitPhaseOutcome(w, fits, h, patches);
        forall path | forall i :: 0 <= i < |patches| ==> patches[i].path != path ensures OnlyOthers(w, h, h', path) {
          StrangersUntouched(w, fits, h, patches, path);
        }
      }
    }
  }

  lemma StrangersUntouched(w: World, fits: string -> bool, h: Host, patches: seq<FilePatch>, path: string)
    requires PrepareAll(w, fits, h, patches).1.Ok?
    requires forall i :: 0 <= i < |patches| ==> patches[i].path != path
    ensures
      var (h1, prepared) := PrepareAll(w, fits, h, patches);
      OnlyOthers(w, h, CommitAll(w, h1, prepared.value).0, path)
  {
    var (h1, prepared) := PrepareAll(w, fits, h, patches);
    PreparedArePlans(w, fits, h, patches);
    PlanPaths(patches, prepared.value);
    PreflightOnlyReads(w, fits, h, patches, path);
    CommitsTouchOnlyAttempted(w, h1, prepared.value, path);
    OthersThenOthers(w, h, h1, CommitAll(w, h1, prepared.value).0, path);
  }

  // ------------------------------------------------------- files nobody else writes to

  ghost predicate QuietOn(w: World, path: string) {
    forall n :: path !in w(n).edits
  }

  lemma {:induction false} QuietIsConstant(w: World, path: string, content: Option<string>, clock: nat, n: nat)
    requires QuietOn(w, path)
    ensures Seen(w, path, content, clock, n) == content
    decreases n
  {
    if n > 0 {
      assert path !in w(clock).edits;
      QuietIsConstant(w, path, content, clock + 1, n - 1);
    }
  }

  /** A file that went through: it holds its plan for what it held before, and its status says so. */
  ghost predicate FileDone(before: Remote, after: Remote, p: FilePatch, status: Status) {
    var plan := Plan(p, ContentAt(before, p.path));
    && plan.Ok?
    && ContentAt(after, p.path) == plan.value.newContent
    && status == if plan.value.changed then Applied else Unchanged
  }

  ghost predicate FileUntouched(before: Remote, after: Remote, p: FilePatch) {
    ContentAt(after, p.path) == ContentAt(before, p.path)
  }

  /** The outcome of one file that nobody else writes to, whatever happens to the others. */
  ghost predicate QuietFate(before: Remote, after: Remote, p: FilePatch, status: Status) {
    match status
    case NotAttempted => FileUntouched(before, after, p)
    case Failed => FileUntouched(before, after, p)
    case Unknown => FileUntouched(before, after, p) || FileDone(before, after, p, Applied)
    case _ => FileDone(before, after, p, status)
  }

  lemma QuietFileFate(w: World, h: Host, h': Host, p: FilePatch, status: Status)
    requires QuietOn(w, p.path) && FileFate(w, h, h', p, status)
    ensures QuietFate(h.files, h'.files, p, status)
  {
    forall content, clock: nat, n: nat ensures Seen(w, p.path, content, clock, n) == content {
      QuietIsConstant(w, p.path, content, clock, n);
    }
    if status == Unchanged {
      var s: nat :| PlannedAsIs(w, h, h', p, s);
      PlanChangedMeaning(p, ContentAt(h.files, p.path));
    }
  }

  /**
   Every file that nobody else writes to ends as its status says, whatever others do elsewhere. In
   particular a full success on quiet files equals carrying out all plans at once on the initial contents.
   */
  lemma QuietFilesOutcome(w: World, fits: string -> bool, h: Host, input: string, k: nat)
    requires ParsePatch(input).Ok? && k < |ParsePatch(input).value|
    requires QuietOn(w, ParsePatch(input).value[k].path)
    ensures
      var (h', outcome) := Batch(w, fits, h, input);
      && |StatusesOf(outcome)| == |ParsePatch(input).value|
      && QuietFate(h.files, h'.files, ParsePatch(input).value[k], StatusesOf(outcome)[k])
  {
    var (h', outcome) := Batch(w, fits, h, input);
    BatchOutcome(w, fits, h, input);
    QuietFileFate(w, h, h', ParsePatch(input).value[k], StatusesOf(outcome)[k]);
  }

  // -------------------------------------------------------------------- the loops

  /** What is known once some files are prepared and the rest gave `rest`. */
  function Following(done: seq<Prepared>, rest: (Host, Result<seq<Prepared>, nat>)): (Host, Result<seq<Prepared>, nat>) {
    (rest.0, if rest.1.Err? then Err(rest.1.error + |done|) else Ok(done + rest.1.value))
  }

  lemma FollowingOne(done: seq<Prepared>, item: Prepared, rest: (Host, Result<seq<Prepared>, nat>))
    ensures Following(done, Following([item], rest)) == Following(done + [item], rest)
  {
    if rest.1.Ok? {
      assert done + ([item] + rest.1.value) == done + [item] + rest.1.value;
    }
  }

  lemma FollowingEnds(done: seq<Prepared>, rest: (Host, Result<seq<Prepared>, nat>))
    ensures Following([], rest) == rest && Following(done, (rest.0, Ok([]))) == (rest.0, Ok(done))
  {
    if rest.1.Ok? {
      assert [] + rest.1.value == rest.1.value;
    }
    assert done + [] == done;
  }

  lemma PrepareSteps(
    w: World, fits: string -> bool, spec: (Host, Result<seq<Prepared>, nat>), host: Host,
    patches: seq<FilePatch>, prepared: seq<Prepared>)
    requires |prepared| < |patches|
    requires spec == Following(prepared, PrepareAll(w, fits, host, patches[|prepared|..]))
    ensures
      var (next, snapshot) := Load(w, host, patches[|prepared|].path);
      var item := TryPlan(fits, patches[|prepared|], snapshot);
      if item.None? then spec == (next, Err(|prepared|))
      else spec == Following(prepared + [item.value], PrepareAll(w, fits, next, patches[|prepared| + 1..]))
  {
    var rest := patches[|prepared|..];
    assert rest[0] == patches[|prepared|] && rest[1..] == patches[|prepared| + 1..];
    var (next, snapshot) := Load(w, host, rest[0].path);
    var item := TryPlan(fits, rest[0], snapshot);
    if item.Some? {
      FollowingOne(prepared, item.value, PrepareAll(w, fits, next, rest[1..]));
    }
  }

  method PrepareLoop(w: World, fits: string -> bool, h: Host, patches: seq<FilePatch>)
    returns (host: Host, result: Result<seq<Prepared>, nat>)
    ensures (host, result) == PrepareAll(w, fits, h, patches)
  {
    host := h;
    var prepared: seq<Prepared> := [];
    var index := 0;
    ghost var spec := PrepareAll(w, fits, h, patches);
    assert patches[0..] == patches;
    FollowingEnds(prepared, spec);
    while index < |patches|
      invariant 0 <= index == |prepared| <= |patches|
      invariant spec == Following(prepared, PrepareAll(w, fits, host, patches[index..]))
    {
      PrepareSteps(w, fits, spec, host, patches, prepared);
      var (next, snapshot) := Load(w, host, patches[index].path);
      host := next;
      var item := TryPlan(fits, patches[index], snapshot);
      if item.None? {
        return host, Err(index);
      }
      prepared := prepared + [item.value];
      index := index + 1;
    }
    FollowingEnds(prepared, (host, Ok([])));
    result := Ok(prepared);
  }

  lemma OneMoreStatus(items: seq<Prepared>, index: nat, statuses: seq<Status>, status: Status)
    requires index < |items| && statuses == DoneStatuses(items[..index]) + Untried(|items| - index)
    ensures statuses[index := status] == DoneStatuses(items[..index]) + [status] + Untried(|items| - index - 1)
    ensures status == StatusOf(items[index]) ==>
              statuses[index := status] == DoneStatuses(items[..index + 1]) + Untried(|items| - index - 1)
  {
  }

  /** How far the commit loop has got. */
  ghost predicate Committing(
    w: World, spec: (Host, Option<(nat, Reply)>), host: Host, items: seq<Prepared>, index: nat)
    requires index <= |items|
  {
    var (h1, s1) := CommitAll(w, host, items[index..]);
    spec == (h1, if s1.None? then None else Some((s1.value.0 + index, s1.value.1)))
  }

  lemma CommitSkips(w: World, spec: (Host, Option<(nat, Reply)>), host: Host, items: seq<Prepared>, index: nat)
    requires index < |items| && Committing(w, spec, host, items, index)
    ensures !items[index].plan.changed ==> Committing(w, spec, host, items, index + 1)
    ensures items[index].plan.changed ==>
              var (next, reply) := CommitOne(w, host, items[index]);
              if reply.Acknowledged? then Committing(w, spec, next, items, index + 1)
              else spec == (next, Some((index, reply)))
  {
    assert items[index..][0] == items[index] && items[index..][1..] == items[index + 1..];
  }

  /** The commit loop; statuses are overwritten in place as files go through. */
  method CommitLoop(w: World, h: Host, items: seq<Prepared>)
    returns (host: Host, stop: Option<(nat, Reply)>, statuses: seq<Status>)
    ensures (host, stop) == CommitAll(w, h, items) && (stop.Some? ==> stop.value.0 < |items|)
    ensures stop.None? ==> Succeeded(statuses) == CommitOutcome(items, stop)
    ensures stop.Some? ==> Stopped(Commit, stop.value.0, statuses) == CommitOutcome(items, stop)
  {
    host := h;
    statuses := Untried(|items|);
    var index := 0;
    ghost var spec := CommitAll(w, h, items);
    assert items[0..] == items;
    while index < |items|
      invariant 0 <= index <= |items| == |statuses|
      invariant Committing(w, spec, host, items, index)
      invariant statuses == DoneStatuses(items[..index]) + Untried(|items| - index)
    {
      var item := items[index];
      CommitSkips(w, spec, host, items, index);
      if !item.plan.changed {
        OneMoreStatus(items, index, statuses, Unchanged);
        statuses := statuses[index := Unchanged];
      } else {
        var (next, reply) := CommitOne(w, host, item);
        host := next;
        if !reply.Acknowledged? {
          OneMoreStatus(items, index, statuses, FailureStatus(reply));
          statuses := statuses[index := FailureStatus(reply)];
          return host, Some((index, reply)), statuses;
        }
        OneMoreStatus(items, index, statuses, Applied);
        statuses := statuses[index := Applied];
      }
      index := index + 1;
    }
    assert items[..index] == items;
    stop := None;
  }

  method ExecuteApplyPatch(w: World, fits: string -> bool, h: Host, input: string) returns (host: Host, outcome: Outcome)
    ensures (host, outcome) == Batch(w, fits, h, input)
  {
    var parsed := ParsePatchLoop(input);
    if parsed.Err? {
      return h, BadPatch(parsed.error);
    }
    var prepared;
    host, prepared := PrepareLoop(w, fits, h, parsed.value);
    if prepared.Err? {
      PrepareFailsInRange(w, fits, h, parsed.value);
      return host, Stopped(Preflight, prepared.error, Untried(|parsed.value|)[prepared.error := Failed]);
    }
    var stop, statuses;
    host, stop, statuses := CommitLoop(w, host, prepared.value);
    outcome := if stop.None? then Succeeded(statuses) else Stopped(Commit, stop.value.0, statuses);
  }
}
