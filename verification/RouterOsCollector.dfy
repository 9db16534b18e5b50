/** Output collection for native RouterOS commands (src/ssh/routeros.rs). */
module RouterOsCollector {
  import opened Basics

  const BYTES_PER_TOKEN := 4
  const USIZE_MAX: nat := 0xFFFF_FFFF_FFFF_FFFF

  function Saturate(n: nat): nat {
    Min(n, USIZE_MAX)
  }

  /** The messages a channel can deliver; `Other` is any kind the collector ignores. */
  datatype ChannelMsg =
    | Data(data: seq<Byte>)
    | ExtendedData(ext: nat, data: seq<Byte>)
    | ExitStatus(code: nat)
    | ExitSignal(name: string)
    | Failure
    | Close
    | Eof
    | Success
    | Other

  datatype Fault =
    | Signalled(name: string)
    | Rejected
    | NoExitStatus
    | EndedWithoutClose
    | StopRequested
    | EnqueueFailed

  /** What a bounded capture holds: a prefix of the stream and the (saturating) stream length. */
  datatype Capture = Capture(bytes: seq<Byte>, total: nat)

  datatype Output = Output(bytes: seq<Byte>, truncated: bool, totalTokens: nat)

  datatype Snapshot = Snapshot(
    stdout: Capture, stderr: Capture, exitCode: Option<nat>, exitSignal: Option<string>, mayHaveRun: bool)

  datatype CommandOutput = CommandOutput(stdout: Output, stderr: Output, exitCode: Option<nat>)

  datatype NativeFailure = NativeFailure(output: CommandOutput, fault: Fault, mayHaveRun: bool)

  type NativeResult = Result<CommandOutput, NativeFailure>

  function AppendTo(c: Capture, data: seq<Byte>, limit: Option<nat>): Capture {
    var room := if limit.None? then |data| else if limit.value <= |c.bytes| then 0 else limit.value - |c.bytes|;
    Capture(c.bytes + data[..Min(room, |data|)], Saturate(c.total + |data|))
  }

  function Report(c: Capture): Output {
    Output(c.bytes, c.total > |c.bytes|, (c.total + BYTES_PER_TOKEN - 1) / BYTES_PER_TOKEN)
  }

  function Limit(maxTokens: Option<nat>): Option<nat> {
    if maxTokens.None? then None else Some(Saturate(maxTokens.value * BYTES_PER_TOKEN))
  }

  const EMPTY := Capture([], 0)
  const FRESH := Snapshot(EMPTY, EMPTY, None, None, false)

  /** One message; a verdict ends the collection. `None` is the end of the message queue. */
  function Step(c: Snapshot, limit: Option<nat>, message: Option<ChannelMsg>)
    : (Snapshot, Option<Result<(), Fault>>)
  {
    if message.None? then (c, Some(Err(EndedWithoutClose)))
    else
      match message.value
      case Data(data) => (c.(stdout := AppendTo(c.stdout, data, limit)), None)
      case ExtendedData(ext, data) =>
        if ext == 1 then (c.(stderr := AppendTo(c.stderr, data, limit)), None)
        else (c.(stdout := AppendTo(c.stdout, data, limit)), None)
      case ExitStatus(code) => (c.(exitCode := Some(code)), None)
      case ExitSignal(name) => (c.(exitSignal := Some(name)), None)
      case Failure => (c.(mayHaveRun := false), Some(Err(Rejected)))
      case Close =>
        (c, Some(if c.exitSignal.Some? then Err(Signalled(c.exitSignal.value))
                 else if c.exitCode.None? then Err(NoExitStatus)
                 else Ok(())))
      case _ => (c, None)
  }

  function Finish(c: Snapshot, verdict: Result<(), Fault>): NativeResult {
    var output := CommandOutput(Report(c.stdout), Report(c.stderr), c.exitCode);
    if verdict.Ok? then Ok(output) else Err(NativeFailure(output, verdict.error, c.mayHaveRun))
  }

  /** Feeds messages until a verdict, then the end of the queue. */
  function Drain(c: Snapshot, limit: Option<nat>, messages: seq<ChannelMsg>): (Snapshot, Result<(), Fault>)
    decreases |messages|
  {
    var (c1, verdict) := Step(c, limit, if messages == [] then None else Some(messages[0]));
    if verdict.Some? then (c1, verdict.value)
    else assert messages != []; Drain(c1, limit, messages[1..])
  }

  // -------------------------------------------------------- independent meaning

  predicate IsTerminal(m: ChannelMsg) {
    m.Close? || m.Failure?
  }

  predicate NoTerminal(messages: seq<ChannelMsg>) {
    forall m :: m in messages ==> !IsTerminal(m)
  }

  function OutPart(m: ChannelMsg): seq<Byte> {
    if m.Data? || (m.ExtendedData? && m.ext != 1) then m.data else []
  }

  function ErrPart(m: ChannelMsg): seq<Byte> {
    if m.ExtendedData? && m.ext == 1 then m.data else []
  }

  /** Everything the peer wrote to a stream, whatever packets it came in. */
  function Stream(part: ChannelMsg -> seq<Byte>, messages: seq<ChannelMsg>): seq<Byte> {
    if messages == [] then []
    else Stream(part, messages[..|messages| - 1]) + part(messages[|messages| - 1])
  }

  function LastStatus(messages: seq<ChannelMsg>): Option<nat> {
    if messages == [] then None
    else
      var m := messages[|messages| - 1];
      if m.ExitStatus? then Some(m.code) else LastStatus(messages[..|messages| - 1])
  }

  function LastSignal(messages: seq<ChannelMsg>): Option<string> {
    if messages == [] then None
    else
      var m := messages[|messages| - 1];
      if m.ExitSignal? then Some(m.name) else LastSignal(messages[..|messages| - 1])
  }

  /** The first `limit` bytes of a stream together with its length. */
  function Prefix(stream: seq<Byte>, limit: Option<nat>): Capture {
    Capture(if limit.None? then stream else stream[..Min(limit.value, |stream|)], Saturate(|stream|))
  }

  function Meaning(limit: Option<nat>, messages: seq<ChannelMsg>): Snapshot {
    Snapshot(Prefix(Stream(OutPart, messages), limit), Prefix(Stream(ErrPart, messages), limit),
             LastStatus(messages), LastSignal(messages), true)
  }

  // ---------------------------------------------------------------- theorems

  lemma AppendExtendsPrefix(stream: seq<Byte>, data: seq<Byte>, limit: Option<nat>)
    ensures AppendTo(Prefix(stream, limit), data, limit) == Prefix(stream + data, limit)
  {
    var all := stream + data;
    if limit.Some? && |stream| <= limit.value {
      var room := limit.value - |stream|;
      assert stream[..|stream|] == stream;
      assert all[..Min(limit.value, |all|)] == stream + data[..Min(room, |data|)];
    } else if limit.Some? {
      assert all[..limit.value] == stream[..limit.value] + data[..0];
    } else {
      assert data[..|data|] == data;
    }
  }

  lemma StepExtendsMeaning(limit: Option<nat>, before: seq<ChannelMsg>, m: ChannelMsg)
    requires !IsTerminal(m)
    ensures Step(Meaning(limit, before), limit, Some(m)) == (Meaning(limit, before + [m]), None)
  {
    var after := before + [m];
    assert after[..|after| - 1] == before && after[|after| - 1] == m;
    AppendExtendsPrefix(Stream(OutPart, before), OutPart(m), limit);
    AppendExtendsPrefix(Stream(ErrPart, before), ErrPart(m), limit);
    assert Stream(OutPart, before) + [] == Stream(OutPart, before);
    assert Stream(ErrPart, before) + [] == Stream(ErrPart, before);
  }

  /** The verdict that a terminal message (or the end of the queue) gives after `before`. */
  function VerdictAfter(before: seq<ChannelMsg>, terminal: Option<ChannelMsg>): Result<(), Fault> {
    if terminal == Some(Close) then
      if LastSignal(before).Some? then Err(Signalled(LastSignal(before).value))
      else if LastStatus(before).None? then Err(NoExitStatus)
      else Ok(())
    else if terminal == Some(Failure) then Err(Rejected)
    else Err(EndedWithoutClose)
  }

  /** How many messages precede the first terminal one. */
  function Body(messages: seq<ChannelMsg>): (n: nat)
    ensures n <= |messages| && NoTerminal(messages[..n])
    ensures n < |messages| ==> IsTerminal(messages[n])
  {
    if messages == [] || IsTerminal(messages[0]) then 0
    else
      var n := 1 + Body(messages[1..]);
      assert messages[..n] == [messages[0]] + messages[1..][..n - 1];
      n
  }

  function Terminal(messages: seq<ChannelMsg>): Option<ChannelMsg> {
    if Body(messages) < |messages| then Some(messages[Body(messages)]) else None
  }

  ghost predicate Drained(limit: Option<nat>, done: seq<ChannelMsg>, rest: seq<ChannelMsg>, before: seq<ChannelMsg>) {
    var (c, verdict) := Drain(Meaning(limit, done), limit, rest);
    && verdict == VerdictAfter(before, Terminal(rest))
    && c == Meaning(limit, before).(mayHaveRun := Terminal(rest) != Some(Failure))
  }

  lemma DrainStops(limit: Option<nat>, done: seq<ChannelMsg>, rest: seq<ChannelMsg>)
    requires rest == [] || IsTerminal(rest[0])
    ensures Body(rest) == 0 && Drained(limit, done, rest, done)
  {
  }

  lemma BodySkipsFirst(rest: seq<ChannelMsg>)
    requires rest != [] && !IsTerminal(rest[0])
    ensures Body(rest) == 1 + Body(rest[1..]) && Terminal(rest) == Terminal(rest[1..])
  {
  }

  lemma DrainAdvances(
    limit: Option<nat>, done: seq<ChannelMsg>, done1: seq<ChannelMsg>, rest: seq<ChannelMsg>, before: seq<ChannelMsg>)
    requires rest != [] && Terminal(rest) == Terminal(rest[1..])
    requires Step(Meaning(limit, done), limit, Some(rest[0])) == (Meaning(limit, done1), None)
    requires Drained(limit, done1, rest[1..], before)
    ensures Drained(limit, done, rest, before)
  {
  }

  lemma {:induction false} DrainFrom(limit: Option<nat>, done: seq<ChannelMsg>, rest: seq<ChannelMsg>, before: seq<ChannelMsg>)
    requires before == done + rest[..Body(rest)]
    ensures Drained(limit, done, rest, before)
    decreases |rest|
  {
    if rest == [] || IsTerminal(rest[0]) {
      DrainStops(limit, done, rest);
      assert before == done;
    } else {
      var done1 := done + [rest[0]];
      StepExtendsMeaning(limit, done, rest[0]);
      BodySkipsFirst(rest);
      MoveOne(done, rest, Body(rest));
      DrainFrom(limit, done1, rest[1..], before);
      DrainAdvances(limit, done, done1, rest, before);
    }
  }

  ghost predicate HasStatus(messages: seq<ChannelMsg>) {
    exists m :: m in messages && m.ExitStatus?
  }

  ghost predicate HasSignal(messages: seq<ChannelMsg>) {
    exists m :: m in messages && m.ExitSignal?
  }

  lemma {:induction false} LastsExist(messages: seq<ChannelMsg>)
    ensures LastStatus(messages).Some? <==> HasStatus(messages)
    ensures LastSignal(messages).Some? <==> HasSignal(messages)
  {
    if messages != [] {
      var init, last := messages[..|messages| - 1], messages[|messages| - 1];
      LastsExist(init);
      assert messages == init + [last];
      if HasStatus(init) {
        var m :| m in init && m.ExitStatus?;
        assert m in messages;
      }
      if HasSignal(init) {
        var m :| m in init && m.ExitSignal?;
        assert m in messages;
      }
      assert last in messages;
    }
  }

  /**
   For every message sequence: collection succeeds exactly when the first terminal
   message is a Close preceded by an exit status and by no exit signal; each stream
   holds the limit-length prefix of all bytes written to it before that point, with
   its truncation flag and rounded-up token count; and only a rejection lets a
   started command be reported as never run.
   */
  lemma CollectorMeaning(limit: Option<nat>, messages: seq<ChannelMsg>)
    ensures
      var (c, verdict) := Drain(FRESH.(mayHaveRun := true), limit, messages);
      var before := messages[..Body(messages)];
      && (verdict.Ok? <==> Terminal(messages) == Some(Close) && HasStatus(before) && !HasSignal(before))
      && c.stdout == Prefix(Stream(OutPart, before), limit)
      && c.stderr == Prefix(Stream(ErrPart, before), limit)
      && c.exitCode == LastStatus(before)
      && (c.mayHaveRun <==> Terminal(messages) != Some(Failure))
  {
    var before := messages[..Body(messages)];
    assert [] + before == before;
    DrainFrom(limit, [], messages, before);
    assert Meaning(limit, []) == FRESH.(mayHaveRun := true);
    LastsExist(before);
  }

  /** The reported flag and count are those of the whole stream while its length fits a machine word. */
  lemma ReportIsExact(stream: seq<Byte>, limit: Option<nat>)
    requires |stream| <= USIZE_MAX
    ensures
      var r := Report(Prefix(stream, limit));
      && r.bytes <= stream
      && (r.truncated <==> r.bytes != stream)
      && (r.truncated ==> limit == Some(|r.bytes|))
      && (r.totalTokens - 1) * BYTES_PER_TOKEN < |stream| <= r.totalTokens * BYTES_PER_TOKEN
  {
  }

  /** A token limit keeps exactly that many tokens' bytes: shorter streams are whole, longer ones are cut there. */
  lemma TokenLimitIsExact(stream: seq<Byte>, tokens: nat)
    requires |stream| <= USIZE_MAX && tokens * BYTES_PER_TOKEN <= USIZE_MAX
    ensures
      var r := Report(Prefix(stream, Limit(Some(tokens))));
      if |stream| <= tokens * BYTES_PER_TOKEN then r.bytes == stream && !r.truncated
      else r.bytes == stream[..tokens * BYTES_PER_TOKEN] && r.truncated
    ensures
      var r := Report(Prefix(stream, Limit(None)));
      r.bytes == stream && !r.truncated
  {
  }

  function OutputOf(r: NativeResult): CommandOutput {
    if r.Ok? then r.value else r.error.output
  }

  /** A report shows the captured bytes, whether any are missing, and the total rounded up to whole tokens. */
  ghost predicate Reported(o: Output, c: Capture) {
    && o.bytes == c.bytes
    && (o.truncated <==> c.total > |c.bytes|)
    && (o.totalTokens - 1) * BYTES_PER_TOKEN < c.total <= o.totalTokens * BYTES_PER_TOKEN
  }

  /** A report is faithful to a stream: a prefix, marked when bytes are missing, with the right total. */
  ghost predicate FaithfulTo(o: Output, stream: seq<Byte>) {
    && o.bytes <= stream
    && (o.truncated <==> o.bytes != stream)
    && (o.totalTokens - 1) * BYTES_PER_TOKEN < |stream| <= o.totalTokens * BYTES_PER_TOKEN
  }

  /**
   What the caller of a command that was enqueued learns, from the messages alone: success exactly for a Close
   after an exit status and no signal, both streams faithfully, the last exit status, and on failure whether
   the command may have run.
   */
  lemma AnswerMeaning(limit: Option<nat>, messages: seq<ChannelMsg>)
    requires |Stream(OutPart, messages[..Body(messages)])| <= USIZE_MAX
    requires |Stream(ErrPart, messages[..Body(messages)])| <= USIZE_MAX
    ensures
      var (c, verdict) := Drain(FRESH.(mayHaveRun := true), limit, messages);
      var before, r := messages[..Body(messages)], Finish(c, verdict);
      && (r.Ok? <==> Terminal(messages) == Some(Close) && HasStatus(before) && !HasSignal(before))
      && FaithfulTo(OutputOf(r).stdout, Stream(OutPart, before))
      && FaithfulTo(OutputOf(r).stderr, Stream(ErrPart, before))
      && OutputOf(r).exitCode == LastStatus(before)
      && (r.Err? ==> (r.error.mayHaveRun <==> Terminal(messages) != Some(Failure)))
  {
    var before := messages[..Body(messages)];
    CollectorMeaning(limit, messages);
    ReportIsExact(Stream(OutPart, before), limit);
    ReportIsExact(Stream(ErrPart, before), limit);
  }

  /** Two message sequences that differ only in how output was cut into packets. */
  ghost predicate SameButPackets(a: seq<ChannelMsg>, b: seq<ChannelMsg>) {
    && Terminal(a) == Terminal(b)
    && Stream(OutPart, a[..Body(a)]) == Stream(OutPart, b[..Body(b)])
    && Stream(ErrPart, a[..Body(a)]) == Stream(ErrPart, b[..Body(b)])
    && LastStatus(a[..Body(a)]) == LastStatus(b[..Body(b)])
    && LastSignal(a[..Body(a)]) == LastSignal(b[..Body(b)])
  }

  /** The state and verdict that messages before a terminal one, and that one, lead to. */
  function Ending(limit: Option<nat>, before: seq<ChannelMsg>, terminal: Option<ChannelMsg>): (Snapshot, Result<(), Fault>) {
    (Meaning(limit, before).(mayHaveRun := terminal != Some(Failure)), VerdictAfter(before, terminal))
  }

  lemma DrainIsEnding(limit: Option<nat>, messages: seq<ChannelMsg>)
    ensures Drain(FRESH.(mayHaveRun := true), limit, messages) == Ending(limit, messages[..Body(messages)], Terminal(messages))
  {
    var before := messages[..Body(messages)];
    assert [] + before == before;
    assert Meaning(limit, []) == FRESH.(mayHaveRun := true);
    DrainFrom(limit, [], messages, before);
  }

  lemma SameEnding(limit: Option<nat>, a: seq<ChannelMsg>, b: seq<ChannelMsg>, terminal: Option<ChannelMsg>)
    requires Stream(OutPart, a) == Stream(OutPart, b) && Stream(ErrPart, a) == Stream(ErrPart, b)
    requires LastStatus(a) == LastStatus(b) && LastSignal(a) == LastSignal(b)
    ensures Ending(limit, a, terminal) == Ending(limit, b, terminal)
  {
  }

  lemma PacketBoundariesAreInvisible(limit: Option<nat>, a: seq<ChannelMsg>, b: seq<ChannelMsg>)
    requires SameButPackets(a, b)
    ensures
      var start := FRESH.(mayHaveRun := true);
      Drain(start, limit, a) == Drain(start, limit, b)
  {
    DrainIsEnding(limit, a);
    DrainIsEnding(limit, b);
    SameEnding(limit, a[..Body(a)], b[..Body(b)], Terminal(a));
  }

  // ------------------------------------------------------- the mutable collector

  class BytePrefix {
    var bytes: seq<Byte>
    var totalBytes: nat

    constructor ()
      ensures bytes == [] && totalBytes == 0
    {
      bytes, totalBytes := [], 0;
    }

    ghost function View(): Capture
      reads this
    {
      Capture(bytes, totalBytes)
    }

    method Append(data: seq<Byte>, limit: Option<nat>)
      modifies this
      ensures View() == AppendTo(old(View()), data, limit)
    {
      totalBytes := Saturate(totalBytes + |data|);
      var take := |data|;
      if limit.Some? {
        take := if limit.value <= |bytes| then 0 else Min(limit.value - |bytes|, |data|);
      }
      bytes := bytes + data[..take];
    }
  }

  class Collector {
    const stdout: BytePrefix
    const stderr: BytePrefix
    const limit: Option<nat>
    var exitCode: Option<nat>
    var exitSignal: Option<string>
    var mayHaveRun: bool

    ghost predicate Valid() {
      stdout != stderr
    }

    ghost function View(): Snapshot
      reads this, stdout, stderr
    {
      Snapshot(stdout.View(), stderr.View(), exitCode, exitSignal, mayHaveRun)
    }

    constructor (maxTokens: Option<nat>)
      ensures Valid() && fresh(stdout) && fresh(stderr)
      ensures View() == FRESH && limit == Limit(maxTokens)
    {
      var out := new BytePrefix();
      var err := new BytePrefix();
      stdout, stderr := out, err;
      limit := Limit(maxTokens);
      exitCode, exitSignal, mayHaveRun := None, None, false;
    }

    method Event(message: Option<ChannelMsg>) returns (verdict: Option<Result<(), Fault>>)
      requires Valid()
      modifies this, stdout, stderr
      ensures (View(), verdict) == Step(old(View()), limit, message)
    {
      if message.None? {
        return Some(Err(EndedWithoutClose));
      }
      match message.value {
        case Data(data) => stdout.Append(data, limit);
        case ExtendedData(ext, data) =>
          if ext == 1 {
            stderr.Append(data, limit);
          } else {
            stdout.Append(data, limit);
          }
        case ExitStatus(code) => exitCode := Some(code);
        case ExitSignal(name) => exitSignal := Some(name);
        case Failure =>
          mayHaveRun := false;
          return Some(Err(Rejected));
        case Close =>
          if exitSignal.Some? {
            return Some(Err(Signalled(exitSignal.value)));
          } else if exitCode.None? {
            return Some(Err(NoExitStatus));
          }
          return Some(Ok(()));
        case _ =>
      }
      verdict := None;
    }

    /** Success or failure as decided, always with everything captured so far. */
    method Result(verdict: Result<(), Fault>) returns (result: NativeResult)
      ensures result == Finish(View(), verdict)
      ensures result.Ok? <==> verdict.Ok?
      ensures Reported(OutputOf(result).stdout, stdout.View()) && Reported(OutputOf(result).stderr, stderr.View())
      ensures OutputOf(result).exitCode == exitCode
      ensures result.Err? ==> result.error.fault == verdict.error && result.error.mayHaveRun == mayHaveRun
    {
      result := Finish(
        Snapshot(
          Capture(stdout.bytes, stdout.totalBytes), Capture(stderr.bytes, stderr.totalBytes),
          exitCode, exitSignal, mayHaveRun),
        verdict);
    }
  }
}
