/**
 Bounded capture of the environment probe and the framing of its records
 (src/ssh/environment.rs).
 */
module EnvRecords {
  import opened Basics

  const STDOUT_LIMIT: nat := 65536
  const STDERR_LIMIT: nat := 4096
  const ELF: nat := 23
  const ELF_BYTES: nat := 64

  // ------------------------------------------------------------------------ capture

  /** Copies what still fits; true only if bytes were discarded. */
  method AppendBounded(output: seq<Byte>, data: seq<Byte>, limit: nat) returns (next: seq<Byte>, discarded: bool)
    requires |output| <= limit
    ensures next == (output + data)[..Min(limit, |output| + |data|)]
    ensures discarded <==> |output| + |data| > limit
  {
    var remaining := limit - |output|;
    next := output + data[..Min(|data|, remaining)];
    discarded := |data| > remaining;
  }

  datatype Event = Data(bytes: seq<Byte>) | Stderr(size: nat) | Failure | Close | Other

  /** Everything the probe wrote to its standard output. */
  function AllData(events: seq<Event>): seq<Byte> {
    if events == [] then []
    else DataOf(events[0]) + AllData(events[1..])
  }

  function DataOf(e: Event): seq<Byte> {
    if e.Data? then e.bytes else []
  }

  lemma AllDataCons(e: Event, events: seq<Event>)
    ensures AllData([e] + events) == DataOf(e) + AllData(events)
  {
    assert ([e] + events)[1..] == events;
  }

  lemma Regroup<T>(a: seq<T>, b: seq<T>, c: seq<T>)
    ensures a + (b + c) == a + b + c
  {
  }

  lemma {:induction false} AllDataSnoc(events: seq<Event>, e: Event)
    ensures AllData(events + [e]) == AllData(events) + DataOf(e)
  {
    if events == [] {
      assert events + [e] == [e] + [];
      AllDataCons(e, []);
    } else {
      var rest := events[1..];
      AllDataSnoc(rest, e);
      Regroup([events[0]], rest, [e]);
      assert [events[0]] + rest == events;
      AllDataCons(events[0], rest + [e]);
      AllDataCons(events[0], rest);
      Regroup(DataOf(events[0]), AllData(rest), DataOf(e));
    }
  }

  lemma {:induction false} AllDataGrows(events: seq<Event>, more: seq<Event>)
    ensures AllData(events) <= AllData(events + more)
  {
    if events == [] {
    } else {
      assert (events + more)[0] == events[0] && (events + more)[1..] == events[1..] + more;
      AllDataGrows(events[1..], more);
    }
  }

  lemma DataUpTo(events: seq<Event>, i: nat)
    requires i < |events|
    ensures AllData(events[..i + 1]) == AllData(events[..i]) + DataOf(events[i])
  {
    AllDataSnoc(events[..i], events[i]);
    assert events[..i + 1] == events[..i] + [events[i]];
  }

  lemma DataIsPrefix(events: seq<Event>, i: nat)
    requires i <= |events|
    ensures AllData(events[..i]) <= AllData(events)
  {
    AllDataGrows(events[..i], events[i..]);
    Rejoin(events, i);
  }

  lemma Rejoin<T>(s: seq<T>, i: nat)
    requires i <= |s|
    ensures s[..i] + s[i..] == s
  {
  }

  /** How much went to standard error. */
  function ErrorSize(events: seq<Event>): nat {
    if events == [] then 0
    else ErrorSize(events[..|events| - 1]) + (var e := events[|events| - 1]; if e.Stderr? then e.size else 0)
  }

  lemma ErrorSizeUpTo(events: seq<Event>, i: nat)
    requires i < |events|
    ensures ErrorSize(events[..i + 1]) == ErrorSize(events[..i]) + if events[i].Stderr? then events[i].size else 0
  {
    assert events[..i + 1][..i] == events[..i];
  }

  /** Event `i` does not end the collection: neither stream has overflowed with it, and it is no failure or close. */
  ghost predicate GoesOn(events: seq<Event>, i: nat)
    requires i < |events|
  {
    match events[i]
    case Data(_) => |AllData(events[..i + 1])| <= STDOUT_LIMIT
    case Stderr(_) => ErrorSize(events[..i + 1]) <= STDERR_LIMIT
    case Failure => false
    case Close => false
    case Other => true
  }

  /** The collection takes exactly the first `n` events: up to the one that ends it, the deadline or the last one. */
  ghost predicate Takes(events: seq<Event>, patience: nat, n: nat) {
    && n <= |events| && n <= patience
    && (forall i :: 0 <= i < n - 1 ==> GoesOn(events, i))
    && (n == |events| || n == patience || (n > 0 && !GoesOn(events, n - 1)))
  }

  /** As much of a text as the limit allows. */
  function Kept(data: seq<Byte>): (k: seq<Byte>)
    ensures k <= data && |k| <= STDOUT_LIMIT
  {
    data[..Min(STDOUT_LIMIT, |data|)]
  }

  /**
   Collects the probe's output until it overflows, fails or closes, or until the deadline,
   which lets only the first `patience` events through.
   */
  method Collect(events: seq<Event>, patience: nat) returns (stdout: seq<Byte>)
    ensures stdout <= AllData(events) && |stdout| <= STDOUT_LIMIT
    ensures exists n: nat :: Takes(events, patience, n) && stdout == Kept(AllData(events[..n]))
  {
    stdout := [];
    var errors, i := 0, 0;
    while i < |events| && i < patience
      invariant 0 <= i <= |events| && i <= patience
      invariant stdout == AllData(events[..i]) && |stdout| <= STDOUT_LIMIT
      invariant errors == ErrorSize(events[..i])
      invariant forall k :: 0 <= k < i ==> GoesOn(events, k)
    {
      var e := events[i];
      DataUpTo(events, i);
      ErrorSizeUpTo(events, i);
      i := i + 1;
      DataIsPrefix(events, i);
      assert Takes(events, patience, i) || GoesOn(events, i - 1);
      match e {
        case Data(bytes) =>
          var discarded;
          stdout, discarded := AppendBounded(stdout, bytes, STDOUT_LIMIT);
          if discarded {
            return;
          }
        case Stderr(size) =>
          errors := errors + size;
          if errors > STDERR_LIMIT {
            return;
          }
        case Failure => return;
        case Close => return;
        case Other =>
      }
    }
    DataIsPrefix(events, i);
    assert Takes(events, patience, i);
  }

  // ------------------------------------------------------------------------ framing

  /** Where the first NUL stands, or the length. */
  function NulAt(s: seq<Byte>): (i: nat)
    ensures i <= |s|
  {
    if s == [] || s[0] == 0 then 0 else 1 + NulAt(s[1..])
  }

  datatype Piece = Piece(value: seq<Byte>, rest: seq<Byte>)

  /** A value up to the next NUL, and what follows it. */
  function NulValue(s: seq<Byte>): Option<Piece> {
    var i := NulAt(s);
    if i == |s| then None else Some(Piece(s[..i], s[i + 1..]))
  }

  /** A payload: text up to a NUL, or the fixed-size binary header and its NUL. */
  function Payload(s: seq<Byte>, elf: bool): Option<Piece> {
    if !elf then NulValue(s)
    else if |s| < ELF_BYTES + 1 || s[ELF_BYTES] != 0 then None
    else Some(Piece(s[..ELF_BYTES], s[ELF_BYTES + 1..]))
  }

  datatype Record = Record(payload: Option<seq<Byte>>, rest: seq<Byte>)

  /** One complete record with the expected name; its payload counts only with exit status 0. */
  function NextRecord(s: seq<Byte>, name: seq<Byte>, elf: bool): Option<Record> {
    var id := NulValue(s);
    if id.None? || id.value.value != name then None
    else
      var payload := Payload(id.value.rest, elf);
      if payload.None? then None
      else
        var status := NulValue(payload.value.rest);
        if status.None? then None
        else Some(Record(if status.value.value == [48] then Some(payload.value.value) else None, status.value.rest))
  }

  /** The records read before the first one that is cut off or out of order. */
  function Records(s: seq<Byte>, names: seq<seq<Byte>>, i: nat): seq<Option<seq<Byte>>>
    requires i <= |names|
    decreases |names| - i
  {
    if i == |names| then []
    else
      var r := NextRecord(s, names[i], i == ELF);
      if r.None? then [] else [r.value.payload] + Records(r.value.rest, names, i + 1)
  }

  // ------------------------------------------------- what a longer output changes

  lemma {:induction false} NulAtGrows(s: seq<Byte>, more: seq<Byte>)
    requires NulAt(s) < |s|
    ensures NulAt(s + more) == NulAt(s)
  {
    if s[0] != 0 {
      assert (s + more)[1..] == s[1..] + more;
      NulAtGrows(s[1..], more);
    }
  }

  lemma Slices(s: seq<Byte>, more: seq<Byte>, i: nat)
    requires i < |s|
    ensures (s + more)[..i] == s[..i] && (s + more)[i + 1..] == s[i + 1..] + more
  {
  }

  lemma NulValueGrows(s: seq<Byte>, more: seq<Byte>)
    requires NulValue(s).Some?
    ensures NulValue(s + more) == Some(Piece(NulValue(s).value.value, NulValue(s).value.rest + more))
  {
    NulAtGrows(s, more);
    Slices(s, more, NulAt(s));
  }

  lemma PayloadGrows(s: seq<Byte>, more: seq<Byte>, elf: bool)
    requires Payload(s, elf).Some?
    ensures Payload(s + more, elf) == Some(Piece(Payload(s, elf).value.value, Payload(s, elf).value.rest + more))
  {
    if elf {
      Slices(s, more, ELF_BYTES);
    } else {
      NulValueGrows(s, more);
    }
  }

  lemma RecordGrows(s: seq<Byte>, more: seq<Byte>, name: seq<Byte>, elf: bool)
    requires NextRecord(s, name, elf).Some?
    ensures NextRecord(s + more, name, elf)
         == Some(Record(NextRecord(s, name, elf).value.payload, NextRecord(s, name, elf).value.rest + more))
  {
    NulValueGrows(s, more);
    var id := NulValue(s).value;
    PayloadGrows(id.rest, more, elf);
    NulValueGrows(Payload(id.rest, elf).value.rest, more);
  }

  lemma PrefixCons<T>(x: T, a: seq<T>, b: seq<T>)
    requires a <= b
    ensures [x] + a <= [x] + b
  {
  }

  lemma RecordsStart(s: seq<Byte>, names: seq<seq<Byte>>, i: nat, r: Record)
    requires i < |names| && NextRecord(s, names[i], i == ELF) == Some(r)
    ensures Records(s, names, i) == [r.payload] + Records(r.rest, names, i + 1)
  {
  }

  /** More output only adds records behind those already complete. */
  lemma {:induction false} RecordsGrow(s: seq<Byte>, more: seq<Byte>, names: seq<seq<Byte>>, i: nat)
    requires i <= |names|
    ensures Records(s, names, i) <= Records(s + more, names, i)
    decreases |names| - i
  {
    if i < |names| && NextRecord(s, names[i], i == ELF).Some? {
      var r := NextRecord(s, names[i], i == ELF).value;
      RecordGrows(s, more, names[i], i == ELF);
      RecordsGrow(r.rest, more, names, i + 1);
      RecordsStart(s, names, i, r);
      RecordsStart(s + more, names, i, Record(r.payload, r.rest + more));
      PrefixCons(r.payload, Records(r.rest, names, i + 1), Records(r.rest + more, names, i + 1));
    }
  }

  // --------------------------------------------------------- writing records down

  ghost predicate NoNul(s: seq<Byte>) {
    forall i :: 0 <= i < |s| ==> s[i] != 0
  }

  /** A payload the framing can carry: text without a NUL, or a binary header of the fixed size. */
  ghost predicate Framable(payload: Option<seq<Byte>>, elf: bool) {
    payload.Some? ==> if elf then |payload.value| == ELF_BYTES else NoNul(payload.value)
  }

  /** The probe's output for one record; a failed command has no payload and exit status 1. */
  function FrameOne(name: seq<Byte>, payload: Option<seq<Byte>>, elf: bool): seq<Byte> {
    var body := if payload.Some? then payload.value else if elf then seq(ELF_BYTES, _ => 0) else [];
    name + ([0] + (body + ([0] + ([if payload.Some? then 48 else 49] + [0]))))
  }

  /** The probe's output for the records from number `i` on. */
  function Frame(recs: seq<Option<seq<Byte>>>, names: seq<seq<Byte>>, i: nat): seq<Byte>
    requires i + |recs| <= |names|
    decreases |recs|
  {
    if recs == [] then [] else FrameOne(names[i], recs[0], i == ELF) + Frame(recs[1..], names, i + 1)
  }

  lemma {:induction false} NulValueOf(value: seq<Byte>, rest: seq<Byte>)
    requires NoNul(value)
    ensures NulValue(value + ([0] + rest)) == Some(Piece(value, rest))
  {
    var s := value + ([0] + rest);
    NulAtOf(value, rest);
    assert s[..|value|] == value && s[|value| + 1..] == rest;
  }

  lemma {:induction false} NulAtOf(value: seq<Byte>, rest: seq<Byte>)
    requires NoNul(value)
    ensures NulAt(value + ([0] + rest)) == |value|
  {
    if value != [] {
      assert (value + ([0] + rest))[1..] == value[1..] + ([0] + rest);
      NulAtOf(value[1..], rest);
    }
  }

  lemma PayloadOf(body: seq<Byte>, elf: bool, rest: seq<Byte>)
    requires if elf then |body| == ELF_BYTES else NoNul(body)
    ensures Payload(body + ([0] + rest), elf) == Some(Piece(body, rest))
  {
    var s := body + ([0] + rest);
    if elf {
      assert s[..ELF_BYTES] == body && s[ELF_BYTES + 1..] == rest;
    } else {
      NulValueOf(body, rest);
    }
  }

  lemma FrameParts(name: seq<Byte>, body: seq<Byte>, status: Byte, more: seq<Byte>)
    ensures name + ([0] + (body + ([0] + ([status] + [0])))) + more
         == name + ([0] + (body + ([0] + ([status] + ([0] + more)))))
  {
  }

  lemma NextRecordOf(s: seq<Byte>, name: seq<Byte>, elf: bool, r1: seq<Byte>, body: Piece, status: Piece)
    requires NulValue(s) == Some(Piece(name, r1)) && Payload(r1, elf) == Some(body) && NulValue(body.rest) == Some(status)
    ensures NextRecord(s, name, elf) == Some(Record(if status.value == [48] then Some(body.value) else None, status.rest))
  {
  }

  lemma FramedPieces(name: seq<Byte>, body: seq<Byte>, status: Byte, elf: bool, more: seq<Byte>)
    requires NoNul(name) && status != 0 && if elf then |body| == ELF_BYTES else NoNul(body)
    ensures NextRecord(name + ([0] + (body + ([0] + ([status] + ([0] + more))))), name, elf)
         == Some(Record(if [status] == [48] then Some(body) else None, more))
  {
    var last := [status] + ([0] + more);
    var mid := body + ([0] + last);
    NulValueOf([status], more);
    PayloadOf(body, elf, last);
    NulValueOf(name, mid);
    NextRecordOf(name + ([0] + mid), name, elf, mid, Piece(body, last), Piece([status], more));
  }

  /** A framed record is read back, and what follows it is left. */
  lemma RecordComesBack(name: seq<Byte>, payload: Option<seq<Byte>>, elf: bool, more: seq<Byte>)
    requires NoNul(name) && Framable(payload, elf)
    ensures NextRecord(FrameOne(name, payload, elf) + more, name, elf) == Some(Record(payload, more))
  {
    var body := if payload.Some? then payload.value else if elf then seq(ELF_BYTES, _ => 0) else [];
    var status: Byte := if payload.Some? then 48 else 49;
    FrameParts(name, body, status, more);
    FramedPieces(name, body, status, elf, more);
    assert [status] == [48] <==> status == 48;
  }

  ghost predicate AllFramable(recs: seq<Option<seq<Byte>>>, i: nat) {
    forall k :: 0 <= k < |recs| ==> Framable(recs[k], i + k == ELF)
  }

  lemma RestIsFramable(recs: seq<Option<seq<Byte>>>, i: nat)
    requires recs != [] && AllFramable(recs, i)
    ensures Framable(recs[0], i == ELF) && AllFramable(recs[1..], i + 1)
  {
    var rest := recs[1..];
    forall k | 0 <= k < |rest| ensures Framable(rest[k], i + 1 + k == ELF) {
      assert rest[k] == recs[k + 1];
    }
  }

  ghost predicate NamesAreText(names: seq<seq<Byte>>) {
    forall k :: 0 <= k < |names| ==> NoNul(names[k])
  }

  lemma NothingToRead(names: seq<seq<Byte>>, i: nat)
    requires i <= |names|
    ensures Records([], names, i) == []
  {
    assert NulValue([]).None?;
  }

  lemma FrameStart(payload: Option<seq<Byte>>, more: seq<Byte>, names: seq<seq<Byte>>, i: nat)
    requires i < |names| && NoNul(names[i]) && Framable(payload, i == ELF)
    ensures Records(FrameOne(names[i], payload, i == ELF) + more, names, i) == [payload] + Records(more, names, i + 1)
  {
    RecordComesBack(names[i], payload, i == ELF, more);
    RecordsStart(FrameOne(names[i], payload, i == ELF) + more, names, i, Record(payload, more));
  }

  /** Whatever records a probe can report, the parser reads exactly those back. */
  lemma {:induction false} FrameComesBack(recs: seq<Option<seq<Byte>>>, names: seq<seq<Byte>>, i: nat)
    requires i + |recs| <= |names| && NamesAreText(names) && AllFramable(recs, i)
    ensures Records(Frame(recs, names, i), names, i) == recs
    decreases |recs|
  {
    if recs == [] {
      NothingToRead(names, i);
    } else {
      RestIsFramable(recs, i);
      FrameComesBack(recs[1..], names, i + 1);
      FrameStart(recs[0], Frame(recs[1..], names, i + 1), names, i);
      assert recs == [recs[0]] + recs[1..];
    }
  }

  /** The output of the first records is what the whole output begins with. */
  lemma {:induction false} FrameOfPrefix(recs: seq<Option<seq<Byte>>>, m: nat, names: seq<seq<Byte>>, i: nat)
    requires m <= |recs| && i + |recs| <= |names|
    ensures Frame(recs[..m], names, i) <= Frame(recs, names, i)
    decreases |recs|
  {
    if m > 0 {
      assert recs[..m][1..] == recs[1..][..m - 1];
      FrameOfPrefix(recs[1..], m - 1, names, i + 1);
    }
  }
}
