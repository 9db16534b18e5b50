/**
 The host snapshot read from the probe's records (src/ssh/environment.rs): which record fills
 which field, and why a truncated probe never changes a field that is already known.
 */
module EnvSnapshot {
  import opened Basics
  import opened EnvRecords

  const SCALAR_LIMIT: nat := 1024
  const FILE_LIMIT: nat := 16384
  const PATH_LIMIT: nat := 4096

  // The fixed order of the records; EnvRecords.ELF is the last.
  const HOSTNAME: nat := 0
  const HOSTNAME_PROC: nat := 1
  const OS: nat := 2
  const OS_PROC: nat := 3
  const DISTRIBUTION: nat := 4
  const KERNEL: nat := 5
  const KERNEL_PROC: nat := 6
  const MACHINE: nat := 7
  const UID: nat := 8
  const GID: nat := 9
  const STATUS: nat := 10
  const SHELL: nat := 11
  const CPU: nat := 12
  const CPU_MODEL1: nat := 13
  const CPU_MODEL4: nat := 16
  const CPU_HYPERVISOR: nat := 17
  const CONTAINER_DECL: nat := 18
  const CONTAINER_MARKER: nat := 19
  const HYPERVISOR_TYPE: nat := 20
  const DMI_PRODUCT: nat := 21
  const DMI_VENDOR: nat := 22
  const COUNT: nat := 24

  /** A text of characters below 256, none of them NUL; anything else becomes a question mark. */
  function Bytes(s: string): seq<Byte> {
    seq(|s|, i requires 0 <= i < |s| => if 0 < s[i] as int < 256 then s[i] as int else 63)
  }

  const NAMES: seq<string> :=
    ["hostname", "hostname_proc", "os", "os_proc", "distribution", "kernel", "kernel_proc", "machine", "uid", "gid",
     "status", "shell", "cpu", "cpu_model1", "cpu_model2", "cpu_model3", "cpu_model4", "cpu_hypervisor",
     "container_decl", "container_marker", "hypervisor_type", "dmi_product", "dmi_vendor", "elf"]

  function Names(): (names: seq<seq<Byte>>)
    ensures |names| == COUNT
  {
    seq(COUNT, i requires 0 <= i < COUNT => Bytes(NAMES[i]))
  }

  datatype Abi = Abi(architecture: string, width: nat)

  /** The payload decoders; what they accept does not matter here. */
  datatype Decoders = Decoders(
    scalar: (seq<Byte>, nat) -> Option<string>,
    distribution: seq<Byte> -> Option<string>,
    decimal: seq<Byte> -> Option<nat>,
    effectiveId: (seq<Byte>, string) -> Option<nat>,
    cpuModel: seq<Byte> -> Option<string>,
    elfAbi: seq<Byte> -> Option<Abi>)

  // ------------------------------------------------------------------- the program

  /** What the parser has gathered. */
  datatype Partial = Partial(
    hostname: Option<string>,
    os: Option<string>,
    distribution: Option<string>,
    kernel: Option<string>,
    machine: Option<string>,
    uid: Option<nat>,
    gid: Option<nat>,
    shell: Option<string>,
    cpus: Option<nat>,
    models: seq<string>,
    cpuHypervisor: bool,
    containerDecl: Option<string>,
    containerMarker: Option<string>,
    hypervisorType: Option<string>,
    dmiProduct: Option<string>,
    dmiVendor: Option<string>,
    abi: Option<Abi>)

  const NOTHING := Partial(None, None, None, None, None, None, None, None, None, [], false,
                           None, None, None, None, None, None)

  function First<T>(a: Option<T>, b: Option<T>): Option<T> {
    if a.Some? then a else b
  }

  function Narrow(id: Option<nat>): Option<nat> {
    if id.Some? && id.value < 0x1_0000_0000 then id else None
  }

  function Rooted(path: Option<string>): Option<string> {
    if path.Some? && path.value != "" && path.value[0] == '/' then path else None
  }

  function Positive(n: Option<nat>): Option<nat> {
    if n.Some? && n.value > 0 then n else None
  }

  /** The assignment a completed record with exit status 0 causes. */
  function Fill(d: Decoders, p: Partial, i: nat, payload: seq<Byte>): Partial {
    if i == HOSTNAME || i == HOSTNAME_PROC then
      if p.hostname.None? then p.(hostname := d.scalar(payload, SCALAR_LIMIT)) else p
    else if i == OS || i == OS_PROC then
      if p.os.None? then p.(os := d.scalar(payload, SCALAR_LIMIT)) else p
    else if i == KERNEL || i == KERNEL_PROC then
      if p.kernel.None? then p.(kernel := d.scalar(payload, SCALAR_LIMIT)) else p
    else if i == DISTRIBUTION then
      if |payload| <= FILE_LIMIT then p.(distribution := d.distribution(payload)) else p
    else if i == MACHINE then p.(machine := d.scalar(payload, SCALAR_LIMIT))
    else if i == UID then p.(uid := Narrow(d.decimal(payload)))
    else if i == GID then p.(gid := Narrow(d.decimal(payload)))
    else if i == STATUS then
      if |payload| <= FILE_LIMIT then
        p.(uid := First(p.uid, d.effectiveId(payload, "Uid:")), gid := First(p.gid, d.effectiveId(payload, "Gid:")))
      else p
    else if i == SHELL then p.(shell := Rooted(d.scalar(payload, PATH_LIMIT)))
    else if i == CPU then p.(cpus := Positive(d.decimal(payload)))
    else if CPU_MODEL1 <= i <= CPU_MODEL4 then
      var model := d.cpuModel(payload);
      if model.Some? then p.(models := p.models + [model.value]) else p
    else if i == CPU_HYPERVISOR then p.(cpuHypervisor := payload == [49])
    else if i == CONTAINER_DECL then p.(containerDecl := d.scalar(payload, SCALAR_LIMIT))
    else if i == CONTAINER_MARKER then p.(containerMarker := d.scalar(payload, SCALAR_LIMIT))
    else if i == HYPERVISOR_TYPE then p.(hypervisorType := d.scalar(payload, SCALAR_LIMIT))
    else if i == DMI_PRODUCT then p.(dmiProduct := d.scalar(payload, SCALAR_LIMIT))
    else if i == DMI_VENDOR then p.(dmiVendor := d.scalar(payload, SCALAR_LIMIT))
    else if i == ELF then
      if d.elfAbi(payload).Some? then p.(abi := d.elfAbi(payload)) else p
    else p
  }

  // ------------------------------------------------------- what each field stands for

  function Get(recs: seq<Option<seq<Byte>>>, k: nat): Option<seq<Byte>> {
    if k < |recs| then recs[k] else None
  }

  function Scalar(d: Decoders, r: Option<seq<Byte>>, limit: nat): Option<string> {
    if r.Some? then d.scalar(r.value, limit) else None
  }

  function Number(d: Decoders, r: Option<seq<Byte>>): Option<nat> {
    if r.Some? then d.decimal(r.value) else None
  }

  function EffectiveId(d: Decoders, r: Option<seq<Byte>>, limit: nat, which: string): Option<nat> {
    if r.Some? && |r.value| <= limit then d.effectiveId(r.value, which) else None
  }

  function Model(d: Decoders, r: Option<seq<Byte>>): seq<string> {
    if r.Some? && d.cpuModel(r.value).Some? then [d.cpuModel(r.value).value] else []
  }

  /** Each field from the records that feed it, whatever order they were read in. */
  function Meaning(d: Decoders, recs: seq<Option<seq<Byte>>>): Partial {
    Partial(
      First(Scalar(d, Get(recs, HOSTNAME), SCALAR_LIMIT), Scalar(d, Get(recs, HOSTNAME_PROC), SCALAR_LIMIT)),
      First(Scalar(d, Get(recs, OS), SCALAR_LIMIT), Scalar(d, Get(recs, OS_PROC), SCALAR_LIMIT)),
      (var r := Get(recs, DISTRIBUTION); if r.Some? && |r.value| <= FILE_LIMIT then d.distribution(r.value) else None),
      First(Scalar(d, Get(recs, KERNEL), SCALAR_LIMIT), Scalar(d, Get(recs, KERNEL_PROC), SCALAR_LIMIT)),
      Scalar(d, Get(recs, MACHINE), SCALAR_LIMIT),
      First(Narrow(Number(d, Get(recs, UID))), EffectiveId(d, Get(recs, STATUS), FILE_LIMIT, "Uid:")),
      First(Narrow(Number(d, Get(recs, GID))), EffectiveId(d, Get(recs, STATUS), FILE_LIMIT, "Gid:")),
      Rooted(Scalar(d, Get(recs, SHELL), PATH_LIMIT)),
      Positive(Number(d, Get(recs, CPU))),
      Model(d, Get(recs, 13)) + Model(d, Get(recs, 14)) + Model(d, Get(recs, 15)) + Model(d, Get(recs, 16)),
      Get(recs, CPU_HYPERVISOR) == Some([49]),
      Scalar(d, Get(recs, CONTAINER_DECL), SCALAR_LIMIT),
      Scalar(d, Get(recs, CONTAINER_MARKER), SCALAR_LIMIT),
      Scalar(d, Get(recs, HYPERVISOR_TYPE), SCALAR_LIMIT),
      Scalar(d, Get(recs, DMI_PRODUCT), SCALAR_LIMIT),
      Scalar(d, Get(recs, DMI_VENDOR), SCALAR_LIMIT),
      (var r := Get(recs, ELF); if r.Some? then d.elfAbi(r.value) else None))
  }

  function Advance(d: Decoders, p: Partial, i: nat, r: Option<seq<Byte>>): Partial {
    if r.Some? then Fill(d, p, i, r.value) else p
  }

  lemma ModelsSnoc(d: Decoders, recs: seq<Option<seq<Byte>>>, r: Option<seq<Byte>>)
    requires 13 <= |recs| <= 16
    ensures Meaning(d, recs + [r]).models == Meaning(d, recs).models + Model(d, r)
  {
  }

  /** Reading one record more makes exactly the assignment the program makes. */
  lemma MeaningSnoc(d: Decoders, recs: seq<Option<seq<Byte>>>, r: Option<seq<Byte>>)
    requires |recs| < COUNT
    ensures Meaning(d, recs + [r]) == Advance(d, Meaning(d, recs), |recs|, r)
  {
    var next := recs + [r];
    assert forall k: nat :: Get(next, k) == if k == |recs| then r else Get(recs, k);
    if 13 <= |recs| <= 16 {
      ModelsSnoc(d, recs, r);
    }
  }

  // ------------------------------------------------------------------- CPU models

  /** The byte order of strings. */
  predicate Less(a: string, b: string) {
    if b == "" then false
    else if a == "" then true
    else a[0] < b[0] || (a[0] == b[0] && Less(a[1..], b[1..]))
  }

  lemma {:induction false} LessIsTotal(a: string, b: string)
    ensures a == b || Less(a, b) || Less(b, a)
  {
    if a != "" && b != "" && a[0] == b[0] {
      LessIsTotal(a[1..], b[1..]);
      assert a == [a[0]] + a[1..] && b == [b[0]] + b[1..];
    }
  }

  lemma {:induction false} LessIsTransitive(a: string, b: string, c: string)
    requires Less(a, b) && Less(b, c)
    ensures Less(a, c)
  {
    if a != "" && a[0] == b[0] == c[0] {
      LessIsTransitive(a[1..], b[1..], c[1..]);
    }
  }

  ghost predicate Increasing(s: seq<string>) {
    forall i, j :: 0 <= i < j < |s| ==> Less(s[i], s[j])
  }

  /** Puts a string in its place, unless it is there already. */
  function Insert(x: string, sorted: seq<string>): seq<string> {
    if sorted == [] || Less(x, sorted[0]) then [x] + sorted
    else if x == sorted[0] then sorted
    else [sorted[0]] + Insert(x, sorted[1..])
  }

  /** Sorting and removing duplicates. */
  function SortDedup(models: seq<string>): seq<string> {
    if models == [] then [] else Insert(models[0], SortDedup(models[1..]))
  }

  lemma {:induction false} InsertIsSorted(x: string, sorted: seq<string>)
    requires Increasing(sorted)
    ensures Increasing(Insert(x, sorted))
    ensures forall y :: y in Insert(x, sorted) <==> y == x || y in sorted
    ensures |Insert(x, sorted)| <= |sorted| + 1
  {
    if sorted == [] {
    } else if Less(x, sorted[0]) {
      forall j | 0 < j < |sorted| ensures Less(x, sorted[j]) {
        LessIsTransitive(x, sorted[0], sorted[j]);
      }
    } else if x != sorted[0] {
      LessIsTotal(x, sorted[0]);
      var rest := Insert(x, sorted[1..]);
      InsertIsSorted(x, sorted[1..]);
      forall j | 0 <= j < |rest| ensures Less(sorted[0], rest[j]) {
        assert rest[j] in rest;
      }
      assert sorted == [sorted[0]] + sorted[1..];
    }
  }

  lemma {:induction false} SortDedupMeaning(models: seq<string>)
    ensures Increasing(SortDedup(models)) && |SortDedup(models)| <= |models|
    ensures forall y :: y in SortDedup(models) <==> y in models
  {
    if models != [] {
      SortDedupMeaning(models[1..]);
      InsertIsSorted(models[0], SortDedup(models[1..]));
      assert models == [models[0]] + models[1..];
    }
  }

  // --------------------------------------------------------------- virtualization

  predicate IsRuntimeName(s: string) {
    && 0 < |s| <= 64
    && forall i :: 0 <= i < |s| ==> 'a' <= s[i] <= 'z' || '0' <= s[i] <= '9' || s[i] == '-' || s[i] == '_'
  }

  function ContainerKind(declaration: Option<string>, marker: Option<string>): Option<string> {
    var known := if marker == Some("podman") || marker == Some("docker") then marker else None;
    if declaration.None? || !IsRuntimeName(declaration.value) then known
    else
      var name := declaration.value;
      if name == "docker" || name == "podman" || name == "lxc" || name == "systemd-nspawn" || name == "openvz"
      then declaration
      else if name == "lxc-libvirt" then Some("lxc")
      else if name == "oci" then First(known, Some("unknown"))
      else Some("unknown")
  }

  function DmiKind(value: Option<string>): Option<string> {
    if value.None? then None
    else
      var v := value.value;
      if v == "KVM" then Some("kvm")
      else if v == "QEMU" then Some("qemu")
      else if v == "VMware" || v == "VMware, Inc." || v == "VMware Virtual Platform" then Some("vmware")
      else if v == "VirtualBox" || v == "innotek GmbH" then Some("virtualbox")
      else if v == "Xen" || v == "HVM domU" then Some("xen")
      else None
  }

  function ProductKind(product: Option<string>, vendor: Option<string>): Option<string> {
    if product == Some("Virtual Machine") && vendor == Some("Microsoft Corporation") then Some("hyperv")
    else DmiKind(product)
  }

  function VmKind(hypervisor: Option<string>, product: Option<string>, vendor: Option<string>, flag: bool): Option<string> {
    if hypervisor == Some("xen") then Some("xen")
    else
      var p := ProductKind(product, vendor);
      var v := DmiKind(vendor);
      if (p == Some("kvm") && v == Some("qemu")) || (p == Some("qemu") && v == Some("kvm")) then Some("kvm")
      else if p.Some? && v.Some? && p != v then Some("unknown")
      else if p.Some? then p
      else if v.Some? then v
      else if flag || hypervisor.Some? then Some("unknown")
      else None
  }

  // -------------------------------------------------------------------- the snapshot

  datatype HostEnvironment = HostEnvironment(
    hostname: Option<string>,
    os: Option<string>,
    distribution: Option<string>,
    kernelRelease: Option<string>,
    machineArchitecture: Option<string>,
    processArchitecture: Option<string>,
    pointerWidth: Option<nat>,
    availableCpuParallelism: Option<nat>,
    effectiveUid: Option<nat>,
    effectiveGid: Option<nat>,
    runningAsRoot: Option<bool>,
    shellExecutable: Option<string>,
    cpuModels: Option<seq<string>>,
    container: Option<string>,
    vm: Option<string>)

  const UNKNOWN := HostEnvironment(None, None, None, None, None, None, None, None, None, None, None, None, None, None, None)

  function Finished(p: Partial): HostEnvironment {
    var models := SortDedup(p.models);
    HostEnvironment(
      p.hostname, p.os, p.distribution, p.kernel, p.machine,
      if p.abi.Some? then Some(p.abi.value.architecture) else None,
      if p.abi.Some? then Some(p.abi.value.width) else None,
      p.cpus, p.uid, p.gid,
      if p.uid.Some? then Some(p.uid.value == 0) else None,
      p.shell,
      if models == [] then None else Some(models),
      ContainerKind(p.containerDecl, p.containerMarker),
      VmKind(p.hypervisorType, p.dmiProduct, p.dmiVendor, p.cpuHypervisor))
  }

  const MAGIC: seq<Byte> := [83, 69, 49, 0]

  /** The records of a whole output; without the leading mark there are none. */
  function RecordsOf(raw: seq<Byte>): seq<Option<seq<Byte>>> {
    if MAGIC <= raw then Records(raw[|MAGIC|..], Names(), 0) else []
  }

  function SnapshotOf(d: Decoders, raw: seq<Byte>): HostEnvironment {
    Finished(Meaning(d, RecordsOf(raw)))
  }

  lemma NothingKnown(d: Decoders)
    ensures Meaning(d, []) == NOTHING && Finished(NOTHING) == UNKNOWN
  {
  }

  /** The parsing loop assigns field after field and yields the snapshot of the records. */
  method ParseSnapshot(d: Decoders, raw: seq<Byte>) returns (snapshot: HostEnvironment)
    ensures snapshot == SnapshotOf(d, raw)
  {
    NothingKnown(d);
    if !(MAGIC <= raw) {
      return UNKNOWN;
    }
    var input := raw[|MAGIC|..];
    var names := Names();
    var p := NOTHING;
    var i := 0;
    ghost var all := Records(input, names, 0);
    ghost var recs: seq<Option<seq<Byte>>> := [];
    while i < COUNT
      invariant 0 <= i <= COUNT && |recs| == i
      invariant p == Meaning(d, recs)
      invariant all == recs + Records(input, names, i)
    {
      RecordsStep(input, names, i, recs);
      var id := NulValue(input);
      if id.None? || id.value.value != names[i] {
        break;
      }
      var payload := Payload(id.value.rest, i == ELF);
      if payload.None? {
        break;
      }
      var status := NulValue(payload.value.rest);
      if status.None? {
        break;
      }
      ghost var r := if status.value.value == [48] then Some(payload.value.value) else None;
      MeaningSnoc(d, recs, r);
      recs := recs + [r];
      if status.value.value == [48] {
        p := Fill(d, p, i, payload.value.value);
      }
      input := status.value.rest;
      i := i + 1;
    }
    assert i == COUNT ==> Records(input, names, i) == [];
    assert recs + [] == recs;
    snapshot := Finished(p);
  }

  /** One more record moves from the input to those already read. */
  lemma RecordsStep(s: seq<Byte>, names: seq<seq<Byte>>, i: nat, recs: seq<Option<seq<Byte>>>)
    requires i < |names|
    ensures var r := NextRecord(s, names[i], i == ELF);
            recs + Records(s, names, i) == if r.None? then recs
                                           else recs + [r.value.payload] + Records(r.value.rest, names, i + 1)
  {
    assert recs + [] == recs;
  }

  // --------------------------------------------------------------------- truncation

  /** Unknown, or what it will be. */
  predicate Settled<T(==)>(now: Option<T>, later: Option<T>) {
    now.None? || now == later
  }

  lemma CutBehindMark<T>(raw: seq<T>, mark: seq<T>, k: nat)
    requires k <= |raw| && mark <= raw[..k]
    ensures mark <= raw && raw[..k][|mark|..] + raw[k..] == raw[|mark|..]
  {
  }

  /** The prefixes of a text are what is left of it after a cut. */
  lemma RecordsBehindMark(short: seq<Byte>, more: seq<Byte>, long: seq<Byte>, names: seq<seq<Byte>>)
    requires short + more == long && |names| == COUNT
    ensures Records(short, names, 0) <= Records(long, names, 0)
  {
    RecordsGrow(short, more, names, 0);
  }

  lemma RecordsOfPrefix(raw: seq<Byte>, k: nat)
    requires k <= |raw|
    ensures RecordsOf(raw[..k]) <= RecordsOf(raw)
  {
    if MAGIC <= raw[..k] {
      CutBehindMark(raw, MAGIC, k);
      RecordsBehindMark(raw[..k][|MAGIC|..], raw[k..], raw[|MAGIC|..], Names());
    }
  }

  ghost predicate HostSettled(now: HostEnvironment, later: HostEnvironment) {
    && Settled(now.hostname, later.hostname)
    && Settled(now.os, later.os)
    && Settled(now.distribution, later.distribution)
    && Settled(now.kernelRelease, later.kernelRelease)
    && Settled(now.machineArchitecture, later.machineArchitecture)
  }

  ghost predicate ProcessSettled(now: HostEnvironment, later: HostEnvironment) {
    && Settled(now.processArchitecture, later.processArchitecture)
    && Settled(now.pointerWidth, later.pointerWidth)
    && Settled(now.availableCpuParallelism, later.availableCpuParallelism)
    && Settled(now.effectiveUid, later.effectiveUid)
    && Settled(now.effectiveGid, later.effectiveGid)
    && Settled(now.runningAsRoot, later.runningAsRoot)
    && Settled(now.shellExecutable, later.shellExecutable)
  }

  /** Every scalar field is unknown, or what it will be. */
  ghost predicate ScalarsSettled(now: HostEnvironment, later: HostEnvironment) {
    HostSettled(now, later) && ProcessSettled(now, later)
  }

  ghost predicate ModelsGrow(now: HostEnvironment, later: HostEnvironment) {
    now.cpuModels.Some? ==>
      && later.cpuModels.Some?
      && Increasing(now.cpuModels.value) && |now.cpuModels.value| <= 4
      && forall m :: m in now.cpuModels.value ==> m in later.cpuModels.value
  }

  lemma FewerRecords(recs: seq<Option<seq<Byte>>>, all: seq<Option<seq<Byte>>>)
    requires recs <= all
    ensures forall k: nat :: Get(recs, k) == if k < |recs| then Get(all, k) else None
  {
  }

  lemma FewerAt(recs: seq<Option<seq<Byte>>>, all: seq<Option<seq<Byte>>>, k: nat)
    requires recs <= all
    ensures Get(recs, k) == if k < |recs| then Get(all, k) else None
  {
  }

  /** A field with a first choice and a fallback that is read later. */
  lemma PairSettles(d: Decoders, recs: seq<Option<seq<Byte>>>, all: seq<Option<seq<Byte>>>, i: nat, j: nat)
    requires recs <= all && i < j
    ensures Settled(First(Scalar(d, Get(recs, i), SCALAR_LIMIT), Scalar(d, Get(recs, j), SCALAR_LIMIT)),
                    First(Scalar(d, Get(all, i), SCALAR_LIMIT), Scalar(d, Get(all, j), SCALAR_LIMIT)))
  {
    FewerAt(recs, all, i);
    FewerAt(recs, all, j);
  }

  lemma HostSettles(d: Decoders, recs: seq<Option<seq<Byte>>>, all: seq<Option<seq<Byte>>>)
    requires recs <= all
    ensures HostSettled(Finished(Meaning(d, recs)), Finished(Meaning(d, all)))
  {
    PairSettles(d, recs, all, HOSTNAME, HOSTNAME_PROC);
    PairSettles(d, recs, all, OS, OS_PROC);
    PairSettles(d, recs, all, KERNEL, KERNEL_PROC);
    FewerAt(recs, all, DISTRIBUTION);
    FewerAt(recs, all, MACHINE);
  }

  lemma ProcessSettles(d: Decoders, recs: seq<Option<seq<Byte>>>, all: seq<Option<seq<Byte>>>)
    requires recs <= all
    ensures ProcessSettled(Finished(Meaning(d, recs)), Finished(Meaning(d, all)))
  {
    FewerAt(recs, all, UID);
    FewerAt(recs, all, GID);
    FewerAt(recs, all, STATUS);
    FewerAt(recs, all, SHELL);
    FewerAt(recs, all, CPU);
    FewerAt(recs, all, ELF);
  }

  lemma ModelsOfPrefix(d: Decoders, recs: seq<Option<seq<Byte>>>, all: seq<Option<seq<Byte>>>)
    requires recs <= all
    ensures |Meaning(d, recs).models| <= 4
    ensures forall m :: m in Meaning(d, recs).models ==> m in Meaning(d, all).models
  {
    FewerRecords(recs, all);
    forall m | m in Meaning(d, recs).models ensures m in Meaning(d, all).models {
      assert forall k: nat :: m in Model(d, Get(recs, k)) ==> m in Model(d, Get(all, k));
    }
  }

  lemma ModelsSettle(d: Decoders, recs: seq<Option<seq<Byte>>>, all: seq<Option<seq<Byte>>>)
    requires recs <= all
    ensures ModelsGrow(Finished(Meaning(d, recs)), Finished(Meaning(d, all)))
  {
    var now, later := Meaning(d, recs).models, Meaning(d, all).models;
    ModelsOfPrefix(d, recs, all);
    SortDedupMeaning(now);
    SortDedupMeaning(later);
    if SortDedup(now) != [] {
      assert SortDedup(now)[0] in SortDedup(later);
    }
  }

  /** Cutting the output anywhere leaves every scalar unknown or right, and the models a sorted subset. */
  lemma TruncationNeverChangesWhatIsKnown(d: Decoders, raw: seq<Byte>, k: nat)
    requires k <= |raw|
    ensures ScalarsSettled(SnapshotOf(d, raw[..k]), SnapshotOf(d, raw))
    ensures ModelsGrow(SnapshotOf(d, raw[..k]), SnapshotOf(d, raw))
  {
    RecordsOfPrefix(raw, k);
    HostSettles(d, RecordsOf(raw[..k]), RecordsOf(raw));
    ProcessSettles(d, RecordsOf(raw[..k]), RecordsOf(raw));
    ModelsSettle(d, RecordsOf(raw[..k]), RecordsOf(raw));
  }

  /** The same for what the bounded collector keeps, however the output is cut into packets. */
  method Probe(d: Decoders, events: seq<Event>, patience: nat) returns (snapshot: HostEnvironment)
    ensures ScalarsSettled(snapshot, SnapshotOf(d, AllData(events)))
    ensures ModelsGrow(snapshot, SnapshotOf(d, AllData(events)))
  {
    var stdout := Collect(events, patience);
    snapshot := ParseSnapshot(d, stdout);
    TruncationNeverChangesWhatIsKnown(d, AllData(events), |stdout|);
    assert AllData(events)[..|stdout|] == stdout;
  }

  // ------------------------------------------------------ the fields that may still change

  /** The condition under which the container read so far stays: no `oci` declaration waits for a known marker. */
  predicate ContainerStays(count: nat, now: Partial, later: Partial) {
    !(&& count == CONTAINER_DECL + 1
      && now.containerDecl == Some("oci")
      && (later.containerMarker == Some("podman") || later.containerMarker == Some("docker")))
  }

  lemma ContainerOfRecords(d: Decoders, recs: seq<Option<seq<Byte>>>, all: seq<Option<seq<Byte>>>)
    requires recs <= all
    ensures Settled(Finished(Meaning(d, recs)).container, Finished(Meaning(d, all)).container) <==>
            ContainerStays(|recs|, Meaning(d, recs), Meaning(d, all))
  {
    FewerRecords(recs, all);
    assert IsRuntimeName("oci");
  }

  /**
   Cutting the output anywhere leaves the container unknown or right, with one exception: a declaration
   of `oci` was read, and the marker that would have named the runtime was cut off.
   */
  lemma ContainerSettlesExactly(d: Decoders, raw: seq<Byte>, k: nat)
    requires k <= |raw|
    ensures Settled(SnapshotOf(d, raw[..k]).container, SnapshotOf(d, raw).container) <==>
            ContainerStays(|RecordsOf(raw[..k])|, Meaning(d, RecordsOf(raw[..k])), Meaning(d, RecordsOf(raw)))
  {
    RecordsOfPrefix(raw, k);
    ContainerOfRecords(d, RecordsOf(raw[..k]), RecordsOf(raw));
  }

  /** Product and vendor name no hypervisor: neither is known, or they contradict each other. */
  predicate Silent(product: Option<string>, vendor: Option<string>) {
    var p, v := ProductKind(product, vendor), DmiKind(vendor);
    || (p.None? && v.None?)
    || (&& p.Some? && v.Some? && p != v
        && !(p == Some("kvm") && v == Some("qemu")) && !(p == Some("qemu") && v == Some("kvm")))
  }

  /** The condition while neither product nor vendor has been read. */
  predicate StaysBeforeProduct(now: Partial, later: Partial) {
    || (!now.cpuHypervisor && now.hypervisorType.None?)
    || (later.hypervisorType != Some("xen") && Silent(later.dmiProduct, later.dmiVendor))
  }

  /** The condition once the product has been read, but not the vendor. */
  predicate StaysBeforeVendor(now: Partial, later: Partial) {
    var p, v := DmiKind(now.dmiProduct), DmiKind(later.dmiVendor);
    if p.None? then
      (!now.cpuHypervisor && now.hypervisorType.None?) || Silent(later.dmiProduct, later.dmiVendor)
    else v.None? || v == p || (p == Some("kvm") && v == Some("qemu"))
  }

  /** The condition under which the virtual machine read so far stays, by the records that were complete. */
  predicate VmStays(count: nat, now: Partial, later: Partial) {
    || count > DMI_VENDOR
    || now.hypervisorType == Some("xen")
    || (if count > DMI_PRODUCT then StaysBeforeVendor(now, later) else StaysBeforeProduct(now, later))
  }

  lemma KindIsNeverUnknown(value: Option<string>)
    ensures DmiKind(value) != Some("unknown") && DmiKind(value) != Some("hyperv")
  {
    assert "unknown"[0] == 'u' && "hyperv"[0] == 'h';
  }

  lemma VmBeforeProduct(h: Option<string>, f: bool, h': Option<string>, p: Option<string>, v: Option<string>, f': bool)
    requires h != Some("xen") && (h.Some? ==> h' == h) && (f ==> f')
    ensures Settled(VmKind(h, None, None, f), VmKind(h', p, v, f')) <==>
            (!f && h.None?) || (h' != Some("xen") && Silent(p, v))
  {
    KindIsNeverUnknown(p);
    KindIsNeverUnknown(v);
    assert "unknown"[0] != "kvm"[0] && "unknown"[0] != "xen"[0] && "unknown"[0] != "hyperv"[0];
  }

  lemma VmBeforeVendor(h: Option<string>, f: bool, p: Option<string>, v: Option<string>)
    requires h != Some("xen")
    ensures Settled(VmKind(h, p, None, f), VmKind(h, p, v, f)) <==>
            if DmiKind(p).None? then (!f && h.None?) || Silent(p, v)
            else DmiKind(v).None? || DmiKind(v) == DmiKind(p) || (DmiKind(p) == Some("kvm") && DmiKind(v) == Some("qemu"))
  {
    KindIsNeverUnknown(p);
    KindIsNeverUnknown(v);
    assert "unknown"[0] != "kvm"[0] && "unknown"[0] != "hyperv"[0] && "qemu"[0] != "kvm"[0];
  }

  lemma VmOfRecords(d: Decoders, recs: seq<Option<seq<Byte>>>, all: seq<Option<seq<Byte>>>)
    requires recs <= all
    ensures Settled(Finished(Meaning(d, recs)).vm, Finished(Meaning(d, all)).vm) <==>
            VmStays(|recs|, Meaning(d, recs), Meaning(d, all))
  {
    FewerRecords(recs, all);
    var now, later := Meaning(d, recs), Meaning(d, all);
    if |recs| <= DMI_PRODUCT && now.hypervisorType != Some("xen") {
      VmBeforeProduct(now.hypervisorType, now.cpuHypervisor, later.hypervisorType, later.dmiProduct, later.dmiVendor, later.cpuHypervisor);
    } else if |recs| == DMI_VENDOR && now.hypervisorType != Some("xen") {
      VmBeforeVendor(now.hypervisorType, now.cpuHypervisor, now.dmiProduct, later.dmiVendor);
    }
  }

  /** Cutting the output anywhere leaves the virtual machine unknown or right exactly under that condition. */
  lemma VmSettlesExactly(d: Decoders, raw: seq<Byte>, k: nat)
    requires k <= |raw|
    ensures Settled(SnapshotOf(d, raw[..k]).vm, SnapshotOf(d, raw).vm) <==>
            VmStays(|RecordsOf(raw[..k])|, Meaning(d, RecordsOf(raw[..k])), Meaning(d, RecordsOf(raw)))
  {
    RecordsOfPrefix(raw, k);
    VmOfRecords(d, RecordsOf(raw[..k]), RecordsOf(raw));
  }

  // --------------------------------------------------------------- outputs that change them

  /** The whole output of a probe that reports these records. */
  function Output(recs: seq<Option<seq<Byte>>>): seq<Byte>
    requires |recs| <= COUNT
  {
    MAGIC + Frame(recs, Names(), 0)
  }

  ghost predicate Reportable(recs: seq<Option<seq<Byte>>>) {
    |recs| <= COUNT && AllFramable(recs, 0)
  }

  /** Whatever a probe can report is read back, and a cut behind any record leaves the records before it. */
  lemma OutputComesBack(recs: seq<Option<seq<Byte>>>, m: nat)
    requires Reportable(recs) && m <= |recs|
    ensures RecordsOf(Output(recs)) == recs
    ensures |Output(recs[..m])| <= |Output(recs)|
    ensures RecordsOf(Output(recs)[..|Output(recs[..m])|]) == recs[..m]
  {
    WholeOutputComesBack(recs);
    WholeOutputComesBack(recs[..m]);
    FrameOfPrefix(recs, m, Names(), 0);
    assert Output(recs)[..|Output(recs[..m])|] == Output(recs[..m]);
  }

  lemma WholeOutputComesBack(recs: seq<Option<seq<Byte>>>)
    requires Reportable(recs)
    ensures RecordsOf(Output(recs)) == recs
  {
    var names := Names();
    forall k | 0 <= k < |names| ensures EnvRecords.NoNul(names[k]) {
      NamesHaveNoNul(k);
    }
    FrameComesBack(recs, names, 0);
    assert Output(recs)[|MAGIC|..] == Frame(recs, names, 0);
  }

  lemma NamesHaveNoNul(k: nat)
    requires k < COUNT
    ensures EnvRecords.NoNul(Names()[k])
  {
    BytesHaveNoNul(NAMES[k]);
  }

  /** The snapshots of a probe's output, whole and cut behind a record, are those of its records. */
  lemma OutputMeaning(d: Decoders, recs: seq<Option<seq<Byte>>>, m: nat)
    requires Reportable(recs) && m <= |recs|
    ensures |Output(recs[..m])| <= |Output(recs)|
    ensures SnapshotOf(d, Output(recs)) == Finished(Meaning(d, recs))
    ensures SnapshotOf(d, Output(recs)[..|Output(recs[..m])|]) == Finished(Meaning(d, recs[..m]))
  {
    OutputComesBack(recs, m);
  }

  /** The decoder reads plain printable text as it stands. */
  ghost predicate ReadsText(d: Decoders, s: string) {
    d.scalar(Bytes(s), SCALAR_LIMIT) == Some(s)
  }

  function Failures(n: nat): seq<Option<seq<Byte>>> {
    seq(n, _ => None)
  }

  /** A probe on a host that declares `oci` and carries the marker of docker. */
  function OciRecords(): seq<Option<seq<Byte>>> {
    Failures(CONTAINER_DECL) + [Some(Bytes("oci")), Some(Bytes("docker"))]
  }

  lemma BytesHaveNoNul(s: string)
    ensures EnvRecords.NoNul(Bytes(s))
  {
  }

  lemma OciFields(d: Decoders)
    requires ReadsText(d, "oci") && ReadsText(d, "docker")
    ensures Finished(Meaning(d, OciRecords()[..CONTAINER_DECL + 1])).container == Some("unknown")
    ensures Finished(Meaning(d, OciRecords())).container == Some("docker")
  {
    var recs := OciRecords();
    var now := recs[..CONTAINER_DECL + 1];
    assert Get(now, CONTAINER_DECL) == Some(Bytes("oci")) && Get(now, CONTAINER_MARKER).None?;
    assert Get(recs, CONTAINER_DECL) == Some(Bytes("oci")) && Get(recs, CONTAINER_MARKER) == Some(Bytes("docker"));
    assert IsRuntimeName("oci");
  }

  lemma OciIsReportable()
    ensures Reportable(OciRecords())
  {
    BytesHaveNoNul("oci");
    BytesHaveNoNul("docker");
  }

  /** Cut behind the declaration, that probe reports an unknown container; whole, it reports docker. */
  lemma OciIsRefinedLater(d: Decoders)
    requires ReadsText(d, "oci") && ReadsText(d, "docker")
    ensures
      var recs := OciRecords();
      var raw, k := Output(recs), |Output(recs[..CONTAINER_DECL + 1])|;
      && k <= |raw|
      && SnapshotOf(d, raw[..k]).container == Some("unknown")
      && SnapshotOf(d, raw).container == Some("docker")
  {
    OciIsReportable();
    OciFields(d);
    OutputMeaning(d, OciRecords(), CONTAINER_DECL + 1);
  }

  /** A probe on a host whose processor reports a hypervisor and whose firmware names KVM. */
  function KvmRecords(): seq<Option<seq<Byte>>> {
    Failures(CPU_HYPERVISOR) + [Some([49])] + Failures(3) + [Some(Bytes("KVM"))]
  }

  lemma KvmFields(d: Decoders)
    requires ReadsText(d, "KVM")
    ensures Finished(Meaning(d, KvmRecords()[..CPU_HYPERVISOR + 1])).vm == Some("unknown")
    ensures Finished(Meaning(d, KvmRecords())).vm == Some("kvm")
  {
    var recs := KvmRecords();
    var now := recs[..CPU_HYPERVISOR + 1];
    assert Get(now, CPU_HYPERVISOR) == Some([49]) && Get(recs, CPU_HYPERVISOR) == Some([49]);
    assert Get(now, HYPERVISOR_TYPE).None? && Get(now, DMI_PRODUCT).None? && Get(now, DMI_VENDOR).None?;
    assert Get(recs, HYPERVISOR_TYPE).None? && Get(recs, DMI_PRODUCT) == Some(Bytes("KVM")) && Get(recs, DMI_VENDOR).None?;
  }

  lemma KvmIsReportable()
    ensures Reportable(KvmRecords())
  {
    BytesHaveNoNul("KVM");
  }

  /** Cut behind the processor's flag, that probe reports an unknown virtual machine; whole, it reports KVM. */
  lemma HypervisorFlagIsRefinedLater(d: Decoders)
    requires ReadsText(d, "KVM")
    ensures
      var recs := KvmRecords();
      var raw, k := Output(recs), |Output(recs[..CPU_HYPERVISOR + 1])|;
      && k <= |raw|
      && SnapshotOf(d, raw[..k]).vm == Some("unknown")
      && SnapshotOf(d, raw).vm == Some("kvm")
  {
    KvmIsReportable();
    KvmFields(d);
    OutputMeaning(d, KvmRecords(), CPU_HYPERVISOR + 1);
  }
}
