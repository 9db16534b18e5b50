/** What a whole probe output is reported as: every field from the records that feed it. */
module EnvFields {
  import opened Basics
  import opened EnvRecords
  import opened EnvSnapshot

  // ------------------------------------------------------------------ single fields

  /** The text that record `k` holds, if it was complete, its command succeeded and it decodes. */
  ghost predicate HasText(d: Decoders, recs: seq<Option<seq<Byte>>>, k: nat, limit: nat, text: string) {
    k < |recs| && recs[k].Some? && d.scalar(recs[k].value, limit) == Some(text)
  }

  ghost predicate HasNumber(d: Decoders, recs: seq<Option<seq<Byte>>>, k: nat, n: nat) {
    k < |recs| && recs[k].Some? && d.decimal(recs[k].value) == Some(n)
  }

  /** The field is the text of that record. */
  ghost predicate IsText(field: Option<string>, d: Decoders, recs: seq<Option<seq<Byte>>>, k: nat) {
    forall t :: field == Some(t) <==> HasText(d, recs, k, SCALAR_LIMIT, t)
  }

  /** The field is the text of the first record, or of the second one if the first has none. */
  ghost predicate IsEitherText(field: Option<string>, d: Decoders, recs: seq<Option<seq<Byte>>>, first: nat, second: nat) {
    forall t :: field == Some(t) <==>
      || HasText(d, recs, first, SCALAR_LIMIT, t)
      || (HasText(d, recs, second, SCALAR_LIMIT, t) && forall u :: !HasText(d, recs, first, SCALAR_LIMIT, u))
  }

  /** The field is the 32-bit number of that record, or else the effective identity from the process status. */
  ghost predicate IsIdentity(field: Option<nat>, d: Decoders, recs: seq<Option<seq<Byte>>>, k: nat, which: string) {
    forall n: nat :: field == Some(n) <==>
      || (n < 0x1_0000_0000 && HasNumber(d, recs, k, n))
      || (HasEffective(d, recs, which, n) && forall m: nat :: m < 0x1_0000_0000 ==> !HasNumber(d, recs, k, m))
  }

  ghost predicate HasEffective(d: Decoders, recs: seq<Option<seq<Byte>>>, which: string, n: nat) {
    && STATUS < |recs| && recs[STATUS].Some? && |recs[STATUS].value| <= FILE_LIMIT
    && d.effectiveId(recs[STATUS].value, which) == Some(n)
  }

  // ---------------------------------------------------------------- the host's fields

  ghost predicate HostFields(e: HostEnvironment, d: Decoders, recs: seq<Option<seq<Byte>>>) {
    && IsEitherText(e.hostname, d, recs, HOSTNAME, HOSTNAME_PROC)
    && IsEitherText(e.os, d, recs, OS, OS_PROC)
    && IsEitherText(e.kernelRelease, d, recs, KERNEL, KERNEL_PROC)
    && IsText(e.machineArchitecture, d, recs, MACHINE)
    && (forall t :: e.distribution == Some(t) <==>
          && DISTRIBUTION < |recs| && recs[DISTRIBUTION].Some? && |recs[DISTRIBUTION].value| <= FILE_LIMIT
          && d.distribution(recs[DISTRIBUTION].value) == Some(t))
  }

  ghost predicate IdentityFields(e: HostEnvironment, d: Decoders, recs: seq<Option<seq<Byte>>>) {
    && IsIdentity(e.effectiveUid, d, recs, UID, "Uid:")
    && IsIdentity(e.effectiveGid, d, recs, GID, "Gid:")
    && (e.runningAsRoot == Some(true) <==> e.effectiveUid == Some(0))
    && (e.runningAsRoot == Some(false) <==> e.effectiveUid.Some? && e.effectiveUid.value > 0)
  }

  ghost predicate IsShell(field: Option<string>, d: Decoders, recs: seq<Option<seq<Byte>>>) {
    forall t :: field == Some(t) <==> HasText(d, recs, SHELL, PATH_LIMIT, t) && |t| > 0 && t[0] == '/'
  }

  ghost predicate IsParallelism(field: Option<nat>, d: Decoders, recs: seq<Option<seq<Byte>>>) {
    forall n: nat :: field == Some(n) <==> n > 0 && HasNumber(d, recs, CPU, n)
  }

  ghost predicate ProcessFields(e: HostEnvironment, d: Decoders, recs: seq<Option<seq<Byte>>>) {
    && IsShell(e.shellExecutable, d, recs)
    && IsParallelism(e.availableCpuParallelism, d, recs)
    && IsAbi(e.processArchitecture, e.pointerWidth, d, recs)
  }

  /** Architecture and width come together, and from the header of the executable alone. */
  ghost predicate IsAbi(architecture: Option<string>, width: Option<nat>, d: Decoders, recs: seq<Option<seq<Byte>>>) {
    && (architecture.Some? <==> width.Some?)
    && (architecture.Some? && width.Some? ==> HasAbi(d, recs, architecture.value, width.value))
    && (architecture.None? ==> forall a, w: nat :: !HasAbi(d, recs, a, w))
  }

  ghost predicate HasAbi(d: Decoders, recs: seq<Option<seq<Byte>>>, architecture: string, width: nat) {
    ELF < |recs| && recs[ELF].Some? && d.elfAbi(recs[ELF].value) == Some(Abi(architecture, width))
  }

  ghost predicate HasModel(d: Decoders, recs: seq<Option<seq<Byte>>>, k: nat, model: string) {
    k < |recs| && recs[k].Some? && d.cpuModel(recs[k].value) == Some(model)
  }

  /** The models of the four records, without repetition and in order; none of them is no list. */
  ghost predicate ModelFields(e: HostEnvironment, d: Decoders, recs: seq<Option<seq<Byte>>>) {
    var listed := if e.cpuModels.Some? then e.cpuModels.value else [];
    && (e.cpuModels.Some? ==> listed != []) && Increasing(listed)
    && forall m :: m in listed <==>
         || HasModel(d, recs, 13, m) || HasModel(d, recs, 14, m) || HasModel(d, recs, 15, m) || HasModel(d, recs, 16, m)
  }

  lemma TextIsReported(d: Decoders, recs: seq<Option<seq<Byte>>>, k: nat, limit: nat)
    ensures forall t :: Scalar(d, Get(recs, k), limit) == Some(t) <==> HasText(d, recs, k, limit, t)
  {
  }

  lemma EitherIsReported(d: Decoders, recs: seq<Option<seq<Byte>>>, i: nat, j: nat)
    ensures IsEitherText(First(Scalar(d, Get(recs, i), SCALAR_LIMIT), Scalar(d, Get(recs, j), SCALAR_LIMIT)), d, recs, i, j)
  {
    TextIsReported(d, recs, i, SCALAR_LIMIT);
    TextIsReported(d, recs, j, SCALAR_LIMIT);
    var first := Scalar(d, Get(recs, i), SCALAR_LIMIT);
    if first.Some? {
      assert HasText(d, recs, i, SCALAR_LIMIT, first.value);
    }
  }

  lemma IdentityIs(d: Decoders, recs: seq<Option<seq<Byte>>>, k: nat, which: string)
    ensures IsIdentity(First(Narrow(Number(d, Get(recs, k))), EffectiveId(d, Get(recs, STATUS), FILE_LIMIT, which)),
                       d, recs, k, which)
  {
    var number := Narrow(Number(d, Get(recs, k)));
    if number.Some? {
      assert HasNumber(d, recs, k, number.value);
    }
  }

  lemma HostIsReported(d: Decoders, recs: seq<Option<seq<Byte>>>)
    ensures HostFields(Finished(Meaning(d, recs)), d, recs)
  {
    EitherIsReported(d, recs, HOSTNAME, HOSTNAME_PROC);
    EitherIsReported(d, recs, OS, OS_PROC);
    EitherIsReported(d, recs, KERNEL, KERNEL_PROC);
    TextIsReported(d, recs, MACHINE, SCALAR_LIMIT);
  }

  lemma IdentityIsReported(d: Decoders, recs: seq<Option<seq<Byte>>>)
    ensures IdentityFields(Finished(Meaning(d, recs)), d, recs)
  {
    IdentityIs(d, recs, UID, "Uid:");
    IdentityIs(d, recs, GID, "Gid:");
  }

  lemma AbiIsReported(d: Decoders, recs: seq<Option<seq<Byte>>>)
    ensures
      var e := Finished(Meaning(d, recs));
      IsAbi(e.processArchitecture, e.pointerWidth, d, recs)
  {
    var r := Get(recs, ELF);
    if r.Some? && d.elfAbi(r.value).Some? {
      assert d.elfAbi(r.value) == Some(Abi(d.elfAbi(r.value).value.architecture, d.elfAbi(r.value).value.width));
    }
  }

  lemma ShellIsReported(d: Decoders, recs: seq<Option<seq<Byte>>>)
    ensures IsShell(Rooted(Scalar(d, Get(recs, SHELL), PATH_LIMIT)), d, recs)
    ensures IsParallelism(Positive(Number(d, Get(recs, CPU))), d, recs)
  {
    TextIsReported(d, recs, SHELL, PATH_LIMIT);
  }

  lemma ProcessIsReported(d: Decoders, recs: seq<Option<seq<Byte>>>)
    ensures ProcessFields(Finished(Meaning(d, recs)), d, recs)
  {
    ShellIsReported(d, recs);
    AbiIsReported(d, recs);
  }

  lemma ModelOfRecord(d: Decoders, recs: seq<Option<seq<Byte>>>, k: nat, m: string)
    ensures m in Model(d, Get(recs, k)) <==> HasModel(d, recs, k, m)
  {
  }

  lemma ModelsAreReported(d: Decoders, recs: seq<Option<seq<Byte>>>)
    ensures ModelFields(Finished(Meaning(d, recs)), d, recs)
  {
    var models := Meaning(d, recs).models;
    SortDedupMeaning(models);
    forall m ensures m in SortDedup(models) <==>
         || HasModel(d, recs, 13, m) || HasModel(d, recs, 14, m) || HasModel(d, recs, 15, m) || HasModel(d, recs, 16, m)
    {
      ModelOfRecord(d, recs, 13, m);
      ModelOfRecord(d, recs, 14, m);
      ModelOfRecord(d, recs, 15, m);
      ModelOfRecord(d, recs, 16, m);
    }
  }

  // ------------------------------------------------------------------ virtualization

  /** The code points of small letters, digits, the hyphen and the underscore. */
  const RUNTIME_CODES: set<int> := (set c: int | 97 <= c < 123) + (set c: int | 48 <= c < 58) + {45, 95}

  /** A name of a container runtime: one to sixty-four of these characters. */
  ghost predicate RuntimeText(s: string) {
    1 <= |s| <= 64 && forall i :: 0 <= i < |s| ==> s[i] as int in RUNTIME_CODES
  }

  lemma RuntimeNameMeaning(s: string)
    ensures IsRuntimeName(s) <==> RuntimeText(s)
  {
    forall i | 0 <= i < |s|
      ensures s[i] as int in RUNTIME_CODES <==> 'a' <= s[i] <= 'z' || '0' <= s[i] <= '9' || s[i] == '-' || s[i] == '_'
    {
    }
  }

  /** For each container that may be reported, what the declaration and the marker then are. */
  ghost predicate ContainerField(container: Option<string>, decl: Option<string>, marker: Option<string>) {
    var declared := decl.Some? && RuntimeText(decl.value);
    var marked := marker == Some("docker") || marker == Some("podman");
    var byMarker := !declared || decl == Some("oci");
    && (container.None? <==> !declared && !marked)
    && (forall name | name == "docker" || name == "podman" ::
          container == Some(name) <==> decl == Some(name) || (byMarker && marker == Some(name)))
    && (container == Some("lxc") <==> decl == Some("lxc") || decl == Some("lxc-libvirt"))
    && (forall name | name == "systemd-nspawn" || name == "openvz" :: container == Some(name) <==> decl == Some(name))
    && (container == Some("unknown") <==>
          && declared && !(decl == Some("oci") && marked)
          && decl.value !in {"docker", "podman", "lxc", "lxc-libvirt", "systemd-nspawn", "openvz"})
  }

  lemma RuntimeNames()
    ensures IsRuntimeName("docker") && IsRuntimeName("podman") && IsRuntimeName("lxc") && IsRuntimeName("lxc-libvirt")
    ensures IsRuntimeName("systemd-nspawn") && IsRuntimeName("openvz") && IsRuntimeName("oci")
  {
  }

  lemma RuntimesDiffer()
    ensures "docker" != "podman" && "docker" != "lxc" && "docker" != "unknown" && "docker" != "oci" && "docker" != "openvz"
    ensures "docker" != "systemd-nspawn" && "podman" != "lxc" && "podman" != "unknown" && "podman" != "systemd-nspawn"
    ensures "podman" != "openvz" && "lxc" != "unknown" && "openvz" != "unknown" && "systemd-nspawn" != "unknown"
  {
    assert "docker"[0] == 'd' && "podman"[0] == 'p' && "lxc"[0] == 'l' && "unknown"[0] == 'u' && "systemd-nspawn"[0] == 's';
  }

  /** Each container is reported for exactly these declarations and markers. */
  lemma ContainerIsReported(decl: Option<string>, marker: Option<string>)
    ensures ContainerField(ContainerKind(decl, marker), decl, marker)
  {
    if decl.Some? {
      RuntimeNameMeaning(decl.value);
    }
    RuntimeNames();
    RuntimesDiffer();
  }

  const KINDS: set<string> := {"kvm", "qemu", "vmware", "virtualbox", "xen"}

  /** The firmware strings that name a kind of virtual machine. */
  function FirmwareNames(kind: string): set<string> {
    if kind == "kvm" then {"KVM"}
    else if kind == "qemu" then {"QEMU"}
    else if kind == "vmware" then {"VMware", "VMware, Inc.", "VMware Virtual Platform"}
    else if kind == "virtualbox" then {"VirtualBox", "innotek GmbH"}
    else if kind == "xen" then {"Xen", "HVM domU"}
    else {}
  }

  /** The kind that a firmware string names, if it names one. */
  ghost predicate IsKindOf(text: Option<string>, kind: Option<string>) {
    match kind
    case Some(k) => k in KINDS && text.Some? && text.value in FirmwareNames(k)
    case None => text.Some? ==> forall k | k in KINDS :: text.value !in FirmwareNames(k)
  }

  /** Somebody names the kind, and nobody names any other. */
  predicate OnlyNamed(product: Option<string>, vendor: Option<string>, kind: string) {
    && (product == Some(kind) || vendor == Some(kind))
    && (product.None? || product == Some(kind)) && (vendor.None? || vendor == Some(kind))
  }

  predicate QemuOrKvm(kind: Option<string>) {
    kind.None? || kind == Some("qemu") || kind == Some("kvm")
  }

  predicate IsHyperV(product: Option<string>, vendor: Option<string>) {
    product == Some("Virtual Machine") && vendor == Some("Microsoft Corporation")
  }

  /**
   For each virtual machine that may be reported, what the kernel and the processor say, which kinds product and
   vendor name, and whether they are those of a Hyper-V guest.
   */
  ghost predicate VmField(
    vm: Option<string>, kernel: Option<string>, product: Option<string>, vendor: Option<string>, hyperV: bool, flag: bool)
  {
    var xen := kernel == Some("xen");
    && (vm == Some("xen") <==> xen || OnlyNamed(product, vendor, "xen"))
    && (vm == Some("hyperv") <==> !xen && hyperV)
    && (forall kind | kind == "vmware" || kind == "virtualbox" || kind == "qemu" ::
          vm == Some(kind) <==> !xen && OnlyNamed(product, vendor, kind))
    && (vm == Some("kvm") <==>
          !xen && (product == Some("kvm") || vendor == Some("kvm")) && QemuOrKvm(product) && QemuOrKvm(vendor))
    && (vm.None? <==> kernel.None? && !flag && product.None? && vendor.None? && !hyperV)
    && (vm.Some? ==> vm.value in KINDS + {"hyperv", "unknown"})
  }

  lemma KindIsNamed(text: Option<string>)
    ensures IsKindOf(text, DmiKind(text))
  {
    assert "KVM"[0] == 'K' && "QEMU"[0] == 'Q' && "VMware"[1] == 'M' && "VirtualBox"[1] == 'i' && "Xen"[0] == 'X';
    KindsDiffer();
  }

  lemma KindsDiffer()
    ensures "kvm" != "qemu" && "kvm" != "vmware" && "kvm" != "virtualbox" && "kvm" != "xen"
    ensures "qemu" != "vmware" && "qemu" != "virtualbox" && "qemu" != "xen"
    ensures "vmware" != "virtualbox" && "vmware" != "xen" && "virtualbox" != "xen"
    ensures forall k :: k in KINDS ==> k != "hyperv" && k != "unknown"
  {
    assert "kvm"[0] == 'k' && "qemu"[0] == 'q' && "vmware"[1] == 'm' && "virtualbox"[1] == 'i' && "xen"[0] == 'x';
    assert "hyperv"[0] == 'h' && "unknown"[0] == 'u';
  }

  lemma MicrosoftNamesNoKind()
    ensures DmiKind(Some("Microsoft Corporation")).None? && DmiKind(Some("Virtual Machine")).None?
  {
    assert "Microsoft Corporation"[1] == 'i' && "Virtual Machine"[1] == 'i' && "VirtualBox"[7] == 'B' && "Virtual Machine"[7] == ' ';
  }

  lemma KindIsKnown(text: Option<string>)
    ensures DmiKind(text).Some? ==> DmiKind(text).value in KINDS
  {
    KindIsNamed(text);
  }

  /** Each virtual machine is reported for exactly these kinds, whatever the strings that name them. */
  lemma VmIsReported(kernel: Option<string>, product: Option<string>, vendor: Option<string>, flag: bool)
    ensures VmField(VmKind(kernel, product, vendor, flag), kernel, DmiKind(product), DmiKind(vendor), IsHyperV(product, vendor), flag)
  {
    KindIsKnown(product);
    KindIsKnown(vendor);
    KindsDiffer();
    MicrosoftNamesNoKind();
  }

  lemma KindIsUnique(text: Option<string>, kind: Option<string>)
    requires IsKindOf(text, kind)
    ensures kind == DmiKind(text)
  {
    KindIsNamed(text);
  }

  lemma TextIsUnique(d: Decoders, recs: seq<Option<seq<Byte>>>, k: nat, text: Option<string>)
    requires IsText(text, d, recs, k)
    ensures text == Scalar(d, Get(recs, k), SCALAR_LIMIT)
  {
    TextIsReported(d, recs, k, SCALAR_LIMIT);
  }

  // -------------------------------------------------------------------- whole outputs

  /** What the five records on virtualization say, and the kinds that product and vendor name. */
  datatype Evidence = Evidence(
    declaration: Option<string>, marker: Option<string>, kernel: Option<string>, product: Option<string>,
    vendor: Option<string>, productKind: Option<string>, vendorKind: Option<string>)

  ghost predicate IsEvidence(v: Evidence, d: Decoders, recs: seq<Option<seq<Byte>>>) {
    && IsText(v.declaration, d, recs, CONTAINER_DECL) && IsText(v.marker, d, recs, CONTAINER_MARKER)
    && IsText(v.kernel, d, recs, HYPERVISOR_TYPE)
    && IsText(v.product, d, recs, DMI_PRODUCT) && IsText(v.vendor, d, recs, DMI_VENDOR)
    && IsKindOf(v.product, v.productKind) && IsKindOf(v.vendor, v.vendorKind)
  }

  /** The processor reports a hypervisor with the single byte `1`. */
  ghost predicate HasFlag(recs: seq<Option<seq<Byte>>>) {
    CPU_HYPERVISOR < |recs| && recs[CPU_HYPERVISOR] == Some([49])
  }

  /** For every output that a probe can report, each field is what the records say, by name and position. */
  lemma OutputIsReported(d: Decoders, recs: seq<Option<seq<Byte>>>)
    requires Reportable(recs)
    ensures
      var e := SnapshotOf(d, Output(recs));
      HostFields(e, d, recs) && IdentityFields(e, d, recs) && ProcessFields(e, d, recs) && ModelFields(e, d, recs)
  {
    OutputMeaning(d, recs, 0);
    HostIsReported(d, recs);
    IdentityIsReported(d, recs);
    ProcessIsReported(d, recs);
    ModelsAreReported(d, recs);
  }

  /** And container and virtual machine are those that the evidence in the records stands for. */
  lemma VirtualizationIsReported(d: Decoders, recs: seq<Option<seq<Byte>>>, v: Evidence)
    requires Reportable(recs) && IsEvidence(v, d, recs)
    ensures
      var e := SnapshotOf(d, Output(recs));
      && ContainerField(e.container, v.declaration, v.marker)
      && VmField(e.vm, v.kernel, v.productKind, v.vendorKind, IsHyperV(v.product, v.vendor), HasFlag(recs))
  {
    OutputMeaning(d, recs, 0);
    TextIsUnique(d, recs, CONTAINER_DECL, v.declaration);
    TextIsUnique(d, recs, CONTAINER_MARKER, v.marker);
    TextIsUnique(d, recs, HYPERVISOR_TYPE, v.kernel);
    TextIsUnique(d, recs, DMI_PRODUCT, v.product);
    TextIsUnique(d, recs, DMI_VENDOR, v.vendor);
    KindIsUnique(v.product, v.productKind);
    KindIsUnique(v.vendor, v.vendorKind);
    ContainerIsReported(v.declaration, v.marker);
    VmIsReported(v.kernel, v.product, v.vendor, HasFlag(recs));
  }

  /** The order in which the records' names must come. */
  lemma NamesInOrder()
    ensures NAMES[..DISTRIBUTION] == ["hostname", "hostname_proc", "os", "os_proc"]
    ensures NAMES[DISTRIBUTION..UID] == ["distribution", "kernel", "kernel_proc", "machine"]
    ensures NAMES[UID..CPU] == ["uid", "gid", "status", "shell"] && NAMES[CPU] == "cpu"
    ensures NAMES[CPU_MODEL1..CPU_HYPERVISOR] == ["cpu_model1", "cpu_model2", "cpu_model3", "cpu_model4"]
    ensures NAMES[CPU_HYPERVISOR..HYPERVISOR_TYPE] == ["cpu_hypervisor", "container_decl", "container_marker"]
    ensures NAMES[HYPERVISOR_TYPE..] == ["hypervisor_type", "dmi_product", "dmi_vendor", "elf"]
  {
  }
}
