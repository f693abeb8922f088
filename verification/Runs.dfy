/** Runs of the node server: any sequence of publish, unpublish and expand calls and restarts, each
    with its own command outcomes. What every run keeps about volumes and filesystems. */
module Runs {
  import opened GoStrings
  import opened Mounts
  import opened FsProbe
  import opened Host
  import opened NodeServer

  datatype Step =
    | PublishStep(publish: PublishRequest, c: Commands)
    | UnpublishStep(unpublish: UnpublishRequest, c: Commands)
    | ExpandStep(expand: ExpandRequest, c: Commands)
    | Restart

  function Next(s: State, step: Step): (State, Answer) {
    match step
    case PublishStep(q, c) => Publish(s, q, c)
    case UnpublishStep(q, c) => Unpublish(s, q, c)
    case ExpandStep(q, c) => Expand(s, q, c)
    case Restart => (State(false, s.node), Success)
  }

  function Exec(s: State, steps: seq<Step>): State
    decreases |steps|
  {
    if steps == [] then s else Exec(Next(s, steps[0]).0, steps[1..])
  }

  // ---------- commands that report what is there ----------

  /** `file` prints data exactly for a device without a filesystem; a type that blkid names is the
      real one. */
  predicate HonestProbe(n: Node, dev: Device, c: Commands) {
    && (c.file.Some? ==> (TrimSpace(c.file.value) == "data" <==> dev in n.lvs && dev !in n.fs))
    && (c.blkid.Some? && ParseBlkid(c.blkid.value).Ok? ==>
          dev in n.fs && ParseBlkid(c.blkid.value).value == n.fs[dev].fstype)
  }

  /** On targets that it reads literally, grep either runs normally or fails with a message. */
  predicate HonestGrep(n: Node, target: string, c: Commands) {
    GrepLiteral(target) ==> c.grep == Grep(target, TableText(n)) || (!c.grep.ok && TrimSpace(c.grep.output) != "")
  }

  /** What is mounted can be found. */
  predicate HonestStat(n: Node, target: string, c: Commands) {
    c.statTarget == Absent ==> !MountedAt(n, target)
  }

  /** A size that lvdisplay shows is the real one. */
  predicate HonestSize(n: Node, dev: Device, c: Commands) {
    c.lvdisplay.Some? && ShownSize(c.lvdisplay.value).Some? ==>
      dev in n.lvs && ShownSize(c.lvdisplay.value).value == n.lvs[dev].size
  }

  /** Which reports a statement relies on: the probes of the device, the view of the mount table, the
      shown sizes. */
  datatype Trust = Trust(probes: bool, table: bool, sizes: bool)

  const PROBES := Trust(true, false, false)
  const TABLE := Trust(false, true, false)
  const SIZES := Trust(false, false, true)
  const PROBES_AND_SIZES := Trust(true, false, true)
  const EVERYTHING := Trust(true, true, true)

  predicate HonestPublish(s: State, q: PublishRequest, c: Commands, trust: Trust) {
    Accepted(q) && !DirectFlag(q) && Provision(s.node, q, c).Some? ==>
      var n := Provision(s.node, q, c).value;
      && (trust.probes ==> HonestProbe(n, DeviceOf(q), c))
      && (trust.table ==> HonestGrep(n, q.target, c) && HonestStat(n, q.target, c))
      && (trust.sizes ==> HonestSize(n, DeviceOf(q), c))
  }

  predicate HonestStep(s: State, step: Step, trust: Trust) {
    match step
    case PublishStep(q, c) => HonestPublish(s, q, c, trust)
    case UnpublishStep(q, c) =>
      trust.table ==> HonestGrep(s.node, q.target, c) && HonestStat(s.node, q.target, c)
    case ExpandStep(q, c) =>
      trust.sizes && c.pv.Some? ==> HonestSize(s.node, Device(VgOfPv(c.pv.value), q.volumeId), c)
    case Restart => true
  }

  predicate HonestRun(s: State, steps: seq<Step>, trust: Trust)
    decreases |steps|
  {
    steps != [] ==> HonestStep(s, steps[0], trust) && HonestRun(Next(s, steps[0]).0, steps[1..], trust)
  }

  // ---------- no data is ever lost ----------

  /** Filesystems live on volumes and never exceed them. */
  ghost predicate Valid(n: Node) {
    forall d :: d in n.fs ==>
      d in n.lvs && n.fs[d].size <= n.lvs[d].size && n.fs[d].fstype != "" && n.fs[d].birth < n.mkfsRuns
  }

  /** No volume disappears or shrinks, and every filesystem is still the one that the same run of
      mkfs made, of the same type and no smaller. */
  ghost predicate Keeps(n: Node, n': Node) {
    && n'.extents == n.extents
    && (forall d :: d in n.lvs ==> d in n'.lvs && n.lvs[d].size <= n'.lvs[d].size && n'.lvs[d].chunk == n.lvs[d].chunk)
    && (forall d :: d in n.fs ==> d in n'.fs && n'.fs[d].birth == n.fs[d].birth &&
                                  n'.fs[d].fstype == n.fs[d].fstype && n.fs[d].size <= n'.fs[d].size)
  }

  lemma KeepsTransitive(a: Node, b: Node, c: Node)
    requires Keeps(a, b) && Keeps(b, c)
    ensures Keeps(a, c)
  {
  }

  lemma ProvisionKeeps(n: Node, q: PublishRequest, c: Commands)
    requires Valid(n) && Provision(n, q, c).Some?
    ensures Valid(Provision(n, q, c).value) && Keeps(n, Provision(n, q, c).value)
    ensures Provision(n, q, c).value.mounts == n.mounts && Provision(n, q, c).value.direct == n.direct
    ensures Provision(n, q, c).value.fs == n.fs
  {
  }

  /** Formatting happens only on a device without a filesystem. */
  lemma FormatKeeps(n: Node, q: PublishRequest, c: Commands)
    requires Valid(n) && HonestProbe(n, DeviceOf(q), c) && FormatIfBlank(n, q, c).Some?
    ensures var n' := FormatIfBlank(n, q, c).value;
      Valid(n') && Keeps(n, n') && n'.lvs == n.lvs && n'.mounts == n.mounts && DeviceOf(q) in n'.fs
    ensures DeviceOf(q) in n.fs ==> FormatIfBlank(n, q, c).value == n
    ensures DeviceOf(q) !in n.fs ==> FormatIfBlank(n, q, c) == MkFs(n, DeviceOf(q), FsTypeOf(q), true)
  {
  }

  lemma ExtendKeeps(n: Node, dev: Device, bytes: nat, ok: bool)
    requires Valid(n) && LvExtend(n, dev, bytes, ok).Some?
    ensures var n' := LvExtend(n, dev, bytes, ok).value; Valid(n') && Keeps(n, n') && n'.mounts == n.mounts
  {
  }

  lemma GrowKeeps(n: Node, dev: Device)
    requires Valid(n)
    ensures Valid(Grow(n, dev)) && Keeps(n, Grow(n, dev))
  {
  }

  /** What resizing never touches. */
  lemma ResizeFrame(n: Node, dev: Device, target: string, c: Commands)
    ensures var n' := ResizeVolume(n, dev, target, c).node;
      n'.mounts == n.mounts && n'.mkfsRuns == n.mkfsRuns && n'.direct == n.direct && n'.extents == n.extents
      && n'.links == n.links
  {
    var n1 := LvExtend(n, dev, RequestedBytes(c.resizePv), c.lvextend);
    if n1.Some? && ResizeFs(n1.value, dev, target, c.resizefs).Some? {
      GrowFrame(n1.value, dev, target, c.resizefs);
    }
  }

  lemma GrowFrame(n: Node, dev: Device, target: string, ok: bool)
    requires ResizeFs(n, dev, target, ok).Some?
    ensures var n' := ResizeFs(n, dev, target, ok).value;
      n'.mounts == n.mounts && n'.mkfsRuns == n.mkfsRuns && n'.direct == n.direct && n'.extents == n.extents
      && n'.links == n.links
  {
  }

  lemma ResizeKeeps(n: Node, dev: Device, target: string, c: Commands)
    requires Valid(n)
    ensures Valid(ResizeVolume(n, dev, target, c).node) && Keeps(n, ResizeVolume(n, dev, target, c).node)
  {
    var n1 := LvExtend(n, dev, RequestedBytes(c.resizePv), c.lvextend);
    if n1.Some? {
      ExtendKeeps(n, dev, RequestedBytes(c.resizePv), c.lvextend);
      var n2 := ResizeFs(n1.value, dev, target, c.resizefs);
      if n2.Some? {
        GrowKeeps(n1.value, GrownDevice(n1.value, dev, target).value);
        KeepsTransitive(n, n1.value, n2.value);
      }
    }
  }

  lemma AttachKeeps(n: Node, q: PublishRequest, created: bool, c: Commands)
    requires Valid(n) && HonestProbe(n, DeviceOf(q), c)
    ensures var n' := Attach(n, q, created, c).0; Valid(n') && Keeps(n, n')
  {
    var m := MountednessForPublish(q.target, c);
    if !m.CannotTell? && FormatIfBlank(n, q, c).Some? {
      FormatKeeps(n, q, c);
      var n1 := FormatIfBlank(n, q, c).value;
      if MountIfNeeded(n1, q, m == Mounted, c).Some? {
        var n2 := MountIfNeeded(n1, q, m == Mounted, c).value;
        assert Valid(n2) && Keeps(n1, n2);
        KeepsTransitive(n, n1, n2);
        if !created {
          ResizeKeeps(n2, DeviceOf(q), q.target, c);
          KeepsTransitive(n, n2, ResizeVolume(n2, DeviceOf(q), q.target, c).node);
        }
      }
    }
  }

  lemma PublishKeeps(s: State, q: PublishRequest, c: Commands, trust: Trust)
    requires Valid(s.node) && HonestPublish(s, q, c, trust) && trust.probes
    ensures Valid(Publish(s, q, c).0.node) && Keeps(s.node, Publish(s, q, c).0.node)
  {
    if Accepted(q) && Provision(s.node, q, c).Some? {
      var n := Provision(s.node, q, c).value;
      ProvisionKeeps(s.node, q, c);
      if !DirectFlag(q) {
        AttachKeeps(n, q, NeedsCreate(s.node, DeviceOf(q), c), c);
        KeepsTransitive(s.node, n, Publish(s, q, c).0.node);
      }
    }
  }

  lemma KeepsSame(n: Node, n': Node)
    requires Valid(n) && n'.extents == n.extents && n'.lvs == n.lvs && n'.fs == n.fs && n'.mkfsRuns == n.mkfsRuns
    ensures Valid(n') && Keeps(n, n')
  {
  }

  /** Unpublish touches nothing but mounts and direct entries. */
  lemma UnpublishFrame(s: State, q: UnpublishRequest, c: Commands)
    ensures var n' := Unpublish(s, q, c).0.node; n' == s.node.(mounts := n'.mounts, direct := n'.direct)
  {
  }

  lemma UnpublishKeeps(s: State, q: UnpublishRequest, c: Commands)
    requires Valid(s.node)
    ensures Valid(Unpublish(s, q, c).0.node) && Keeps(s.node, Unpublish(s, q, c).0.node)
  {
    UnpublishFrame(s, q, c);
    KeepsSame(s.node, Unpublish(s, q, c).0.node);
  }

  lemma ExpandKeeps(s: State, q: ExpandRequest, c: Commands)
    requires Valid(s.node)
    ensures Valid(Expand(s, q, c).0.node) && Keeps(s.node, Expand(s, q, c).0.node)
  {
    if c.pv.Some? { ResizeKeeps(s.node, Device(VgOfPv(c.pv.value), q.volumeId), q.target, c); }
  }

  lemma StepKeeps(s: State, step: Step, trust: Trust)
    requires Valid(s.node) && HonestStep(s, step, trust) && trust.probes
    ensures Valid(Next(s, step).0.node) && Keeps(s.node, Next(s, step).0.node)
  {
    match step
    case PublishStep(q, c) => PublishKeeps(s, q, c, trust);
    case UnpublishStep(q, c) => UnpublishKeeps(s, q, c);
    case ExpandStep(q, c) => ExpandKeeps(s, q, c);
    case Restart =>
  }

  /** In every run, with arbitrary command failures and honest probes, a device that carries a
      filesystem is never formatted again and keeps its type, no volume disappears or shrinks, and no filesystem
      outgrows its volume. */
  lemma {:induction false} DataSafety(s: State, steps: seq<Step>)
    requires Valid(s.node) && HonestRun(s, steps, PROBES)
    ensures Valid(Exec(s, steps).node) && Keeps(s.node, Exec(s, steps).node)
    decreases |steps|
  {
    if steps != [] {
      var s1 := Next(s, steps[0]).0;
      StepKeeps(s, steps[0], PROBES);
      DataSafety(s1, steps[1..]);
      KeepsTransitive(s.node, s1.node, Exec(s1, steps[1..]).node);
    }
  }

  lemma AttachFormatsOnlyBlank(n: Node, q: PublishRequest, created: bool, c: Commands)
    ensures n.mkfsRuns <= Attach(n, q, created, c).0.mkfsRuns <= n.mkfsRuns + 1
    ensures CheckFsType(c.file, c.blkid) != Ok("") ==> Attach(n, q, created, c).0.mkfsRuns == n.mkfsRuns
  {
    var m := MountednessForPublish(q.target, c);
    var n1 := FormatIfBlank(n, q, c);
    if !m.CannotTell? && n1.Some? {
      assert n.mkfsRuns <= n1.value.mkfsRuns <= n.mkfsRuns + 1;
      var n2 := MountIfNeeded(n1.value, q, m == Mounted, c);
      if n2.Some? {
        assert n2.value.mkfsRuns == n1.value.mkfsRuns;
        ResizeFrame(n2.value, DeviceOf(q), q.target, c);
      }
    }
  }

  /** Without honest probes: whatever the commands print, publish runs mkfs only after `file` said
      data or blkid gave an empty type. */
  lemma FormatsOnlyBlank(s: State, q: PublishRequest, c: Commands)
    ensures Publish(s, q, c).0.node.mkfsRuns == s.node.mkfsRuns
      || (c.file.Some? && (TrimSpace(c.file.value) == "data" || (c.blkid.Some? && SaysType(c.blkid.value, ""))))
    ensures Publish(s, q, c).0.node.mkfsRuns <= s.node.mkfsRuns + 1
  {
    BlankOnlyWhenSaid(c.file, c.blkid);
    if Accepted(q) && Provision(s.node, q, c).Some? && !DirectFlag(q) {
      AttachFormatsOnlyBlank(Provision(s.node, q, c).value, q, NeedsCreate(s.node, DeviceOf(q), c), c);
    }
  }

  // ---------- filesystems fill their volumes ----------

  /** Every filesystem is as large as its volume. */
  ghost predicate Full(n: Node) {
    forall d :: d in n.fs ==> d in n.lvs && n.fs[d].size == n.lvs[d].size
  }

  /** The node that a publish hands to the resize step, if it gets there. */
  function NodeAtResize(n: Node, q: PublishRequest, c: Commands): Option<Node> {
    var m := MountednessForPublish(q.target, c);
    if m.CannotTell? || FormatIfBlank(n, q, c).None? then None
    else MountIfNeeded(FormatIfBlank(n, q, c).value, q, m == Mounted, c)
  }

  /** A call of resizeVolume: the node it meets and its arguments. */
  datatype ResizeCall = ResizeCall(n: Node, dev: Device, target: string, c: Commands)

  /** The call of resizeVolume that a step makes, if it makes one: a publish that neither creates the
      volume nor leaves earlier, or an expand that gets that far. */
  function ResizeCallOf(s: State, step: Step): Option<ResizeCall> {
    match step
    case PublishStep(q, c) =>
      if Accepted(q) && !DirectFlag(q) && !NeedsCreate(s.node, DeviceOf(q), c) && NodeAtResize(s.node, q, c).Some?
      then Some(ResizeCall(NodeAtResize(s.node, q, c).value, DeviceOf(q), q.target, c)) else None
    case ExpandStep(q, c) =>
      if q.volumeId != "" && q.target != "" && q.hasRange && !s.isDirect && c.pv.Some? && VgOfPv(c.pv.value) != ""
      then Some(ResizeCall(s.node, Device(VgOfPv(c.pv.value), q.volumeId), q.target, c)) else None
    case _ => None
  }

  /** The node on which ResizeFS is called: the shown size is readable and below the capacity, and the
      volume was extended. */
  function NodeAtResizeFs(r: ResizeCall): Option<Node> {
    if r.c.lvdisplay.None? || ShownSize(r.c.lvdisplay.value).None? then None
    else if ShownSize(r.c.lvdisplay.value).value >= CapacityOf(r.c.resizePv) then None
    else LvExtend(r.n, r.dev, RequestedBytes(r.c.resizePv), r.c.lvextend)
  }

  /** The one failure that matters: ResizeFS is called for a filesystem and fails. */
  predicate ResizeFsFails(r: ResizeCall) {
    var n1 := NodeAtResizeFs(r);
    n1.Some? && r.dev in n1.value.fs && ResizeFs(n1.value, r.dev, r.target, r.c.resizefs).None?
  }

  /** ResizeFS, if called for a filesystem that it grows through the mount path, does not find another
      volume's mount there. */
  predicate MountIsOwn(r: ResizeCall) {
    var n1 := NodeAtResizeFs(r);
    n1.Some? && r.dev in n1.value.fs && HowToGrow(n1.value.fs[r.dev].fstype) == ByMountPath ==>
      var top := TopMount(n1.value.mounts, Resolve(n1.value.links, r.target));
      top.Some? ==> top.value.source == Volume(r.dev)
  }

  predicate NoResizeFsFailure(s: State, step: Step) {
    ResizeCallOf(s, step).Some? ==> !ResizeFsFails(ResizeCallOf(s, step).value)
  }

  predicate NoResizeFsFailures(s: State, steps: seq<Step>)
    decreases |steps|
  {
    steps != [] ==> NoResizeFsFailure(s, steps[0]) && NoResizeFsFailures(Next(s, steps[0]).0, steps[1..])
  }

  predicate ResizesOwn(s: State, step: Step) {
    ResizeCallOf(s, step).Some? ==> MountIsOwn(ResizeCallOf(s, step).value)
  }

  predicate AllResizeOwn(s: State, steps: seq<Step>)
    decreases |steps|
  {
    steps != [] ==> ResizesOwn(s, steps[0]) && AllResizeOwn(Next(s, steps[0]).0, steps[1..])
  }

  lemma ResizeFullIff(r: ResizeCall)
    requires Full(r.n)
    ensures Full(ResizeVolume(r.n, r.dev, r.target, r.c).node) <==> !ResizeFsFails(r) && MountIsOwn(r)
  {
    var n1 := NodeAtResizeFs(r);
    if n1.Some? {
      var n2 := ResizeFs(n1.value, r.dev, r.target, r.c.resizefs);
      var last := if n2.Some? then n2.value else n1.value;
      assert ResizeVolume(r.n, r.dev, r.target, r.c).node == last;
      if r.dev in r.n.fs {
        assert last.fs[r.dev].size == last.lvs[r.dev].size <==> n2 == Some(Grow(n1.value, r.dev));
      }
    }
  }

  lemma FullBeforeResize(n: Node, q: PublishRequest, c: Commands)
    requires Full(n) && NodeAtResize(n, q, c).Some?
    ensures Full(NodeAtResize(n, q, c).value)
  {
    var n1 := FormatIfBlank(n, q, c).value;
    assert Full(n1);
  }

  /** What attaching leaves: the resize of the mounted node, or a node from before it. */
  lemma AttachStages(n: Node, q: PublishRequest, created: bool, c: Commands)
    ensures var n' := Attach(n, q, created, c).0;
      match NodeAtResize(n, q, c)
      case None => n' == n || FormatIfBlank(n, q, c) == Some(n')
      case Some(n2) => n' == if created then n2 else ResizeVolume(n2, DeviceOf(q), q.target, c).node
  {
  }

  lemma AttachFullIff(n: Node, q: PublishRequest, created: bool, c: Commands)
    requires Full(n)
    ensures Full(Attach(n, q, created, c).0) <==>
      (!created && NodeAtResize(n, q, c).Some? ==>
        var r := ResizeCall(NodeAtResize(n, q, c).value, DeviceOf(q), q.target, c); !ResizeFsFails(r) && MountIsOwn(r))
  {
    AttachStages(n, q, created, c);
    if NodeAtResize(n, q, c).Some? {
      FullBeforeResize(n, q, c);
      if !created { ResizeFullIff(ResizeCall(NodeAtResize(n, q, c).value, DeviceOf(q), q.target, c)); }
    } else if FormatIfBlank(n, q, c).Some? {
      assert Full(FormatIfBlank(n, q, c).value);
    }
  }

  lemma PublishFullIff(s: State, q: PublishRequest, c: Commands)
    requires Full(s.node)
    ensures Full(Publish(s, q, c).0.node) <==>
      NoResizeFsFailure(s, PublishStep(q, c)) && ResizesOwn(s, PublishStep(q, c))
  {
    if Accepted(q) && Provision(s.node, q, c).Some? {
      var n := Provision(s.node, q, c).value;
      assert Full(n);
      if !DirectFlag(q) { AttachFullIff(n, q, NeedsCreate(s.node, DeviceOf(q), c), c); }
    }
  }

  lemma StepFullIff(s: State, step: Step)
    requires Full(s.node)
    ensures Full(Next(s, step).0.node) <==> NoResizeFsFailure(s, step) && ResizesOwn(s, step)
  {
    match step
    case PublishStep(q, c) => PublishFullIff(s, q, c);
    case UnpublishStep(q, c) => UnpublishFrame(s, q, c);
    case ExpandStep(q, c) =>
      if ResizeCallOf(s, step).Some? { ResizeFullIff(ResizeCallOf(s, step).value); }
    case Restart =>
  }

  /** At every point of the run, every filesystem is as large as its volume. */
  ghost predicate AlwaysFull(s: State, steps: seq<Step>)
    decreases |steps|
  {
    Full(s.node) && (steps != [] ==> AlwaysFull(Next(s, steps[0]).0, steps[1..]))
  }

  /** In every run, every filesystem stays as large as its volume after every step if and only if no
      ResizeFS call for a filesystem fails, and none that works through the mount path meets another
      volume's mount. */
  lemma {:induction false} FilesystemsStayFull(s: State, steps: seq<Step>)
    requires Full(s.node)
    ensures AlwaysFull(s, steps) <==> NoResizeFsFailures(s, steps) && AllResizeOwn(s, steps)
    decreases |steps|
  {
    if steps != [] {
      StepFullIff(s, steps[0]);
      if Full(Next(s, steps[0]).0.node) { FilesystemsStayFull(Next(s, steps[0]).0, steps[1..]); }
    }
  }

  // ---------- when resizes meet their own mounts ----------

  /** Each mount point belongs to one volume. */
  ghost predicate Owned(n: Node, owner: map<string, Device>) {
    forall i :: 0 <= i < |n.mounts| && n.mounts[i].path in owner ==>
      n.mounts[i].source == Volume(owner[n.mounts[i].path])
  }

  /** The path that the target stands for belongs to the device. */
  predicate Owns(links: map<string, string>, owner: map<string, Device>, target: string, dev: Device) {
    Resolve(links, target) in owner && owner[Resolve(links, target)] == dev
  }

  predicate RespectsOwners(links: map<string, string>, step: Step, owner: map<string, Device>) {
    match step
    case PublishStep(q, _) => Owns(links, owner, q.target, DeviceOf(q))
    case ExpandStep(q, c) => c.pv.Some? ==> Owns(links, owner, q.target, Device(VgOfPv(c.pv.value), q.volumeId))
    case _ => true
  }

  predicate AllRespectOwners(links: map<string, string>, steps: seq<Step>, owner: map<string, Device>) {
    forall i :: 0 <= i < |steps| ==> RespectsOwners(links, steps[i], owner)
  }

  lemma OwnedSnoc(n: Node, m: Mount, owner: map<string, Device>)
    requires Owned(n, owner)
    requires m.path in owner ==> m.source == Volume(owner[m.path])
    ensures Owned(n.(mounts := n.mounts + [m]), owner)
  {
  }

  lemma OwnedTop(n: Node, path: string, owner: map<string, Device>)
    requires Owned(n, owner) && path in owner && TopMount(n.mounts, path).Some?
    ensures TopMount(n.mounts, path).value.source == Volume(owner[path])
  {
    var i :| 0 <= i < |n.mounts| && n.mounts[i] == TopMount(n.mounts, path).value;
  }

  lemma {:induction false} RemoveTopOwned(n: Node, path: string, owner: map<string, Device>)
    requires Owned(n, owner)
    ensures Owned(n.(mounts := RemoveTop(n.mounts, path)), owner)
  {
    RemoveTopCount(n.mounts, path, path);
    var rest := RemoveTop(n.mounts, path);
    forall i | 0 <= i < |rest| && rest[i].path in owner ensures rest[i].source == Volume(owner[rest[i].path]) {
      assert rest[i] in n.mounts;
    }
  }

  /** The mount that a publish makes. */
  function NewMount(links: map<string, string>, q: PublishRequest): Mount {
    Mount(Volume(DeviceOf(q)), Resolve(links, q.target), FsTypeOf(q), MountOptions(q))
  }

  lemma MountsAtResize(n: Node, q: PublishRequest, c: Commands)
    requires NodeAtResize(n, q, c).Some?
    ensures NodeAtResize(n, q, c).value.mounts ==
      if MountednessForPublish(q.target, c) == Mounted then n.mounts else n.mounts + [NewMount(n.links, q)]
  {
  }

  /** The mounts that attaching leaves: the old ones, or one more when the target was taken for
      unmounted and mounting it succeeded. */
  lemma AttachMounts(n: Node, q: PublishRequest, created: bool, c: Commands)
    ensures Attach(n, q, created, c).0.mounts ==
      if NodeAtResize(n, q, c).Some? && MountednessForPublish(q.target, c) == NotMounted
      then n.mounts + [NewMount(n.links, q)] else n.mounts
  {
    AttachStages(n, q, created, c);
    var n2 := NodeAtResize(n, q, c);
    if n2.Some? {
      MountsAtResize(n, q, c);
      ResizeFrame(n2.value, DeviceOf(q), q.target, c);
    }
  }

  lemma AttachOwned(n: Node, q: PublishRequest, created: bool, c: Commands, owner: map<string, Device>)
    requires Owned(n, owner) && Owns(n.links, owner, q.target, DeviceOf(q))
    ensures Owned(Attach(n, q, created, c).0, owner)
  {
    AttachMounts(n, q, created, c);
    OwnedSnoc(n, NewMount(n.links, q), owner);
  }

  lemma UnpublishMounts(s: State, q: UnpublishRequest, c: Commands)
    ensures var ms := Unpublish(s, q, c).0.node.mounts;
      ms == s.node.mounts || ms == RemoveTop(s.node.mounts, Resolve(s.node.links, q.target))
  {
  }

  lemma ExpandMounts(s: State, q: ExpandRequest, c: Commands)
    ensures Expand(s, q, c).0.node.mounts == s.node.mounts
  {
    if c.pv.Some? { ResizeFrame(s.node, Device(VgOfPv(c.pv.value), q.volumeId), q.target, c); }
  }

  lemma AttachLinks(n: Node, q: PublishRequest, created: bool, c: Commands)
    ensures Attach(n, q, created, c).0.links == n.links
  {
    AttachStages(n, q, created, c);
    var n2 := NodeAtResize(n, q, c);
    if n2.Some? { ResizeFrame(n2.value, DeviceOf(q), q.target, c); }
  }

  lemma PublishLinks(s: State, q: PublishRequest, c: Commands)
    ensures Publish(s, q, c).0.node.links == s.node.links
  {
    if Accepted(q) && Provision(s.node, q, c).Some? && !DirectFlag(q) {
      AttachLinks(Provision(s.node, q, c).value, q, NeedsCreate(s.node, DeviceOf(q), c), c);
    }
  }

  /** No step changes what targets stand for. */
  lemma StepLinks(s: State, step: Step)
    ensures Next(s, step).0.node.links == s.node.links
  {
    match step
    case PublishStep(q, c) => PublishLinks(s, q, c);
    case UnpublishStep(q, c) => UnpublishFrame(s, q, c);
    case ExpandStep(q, c) =>
      if c.pv.Some? { ResizeFrame(s.node, Device(VgOfPv(c.pv.value), q.volumeId), q.target, c); }
    case Restart =>
  }

  lemma {:induction false} RunLinks(s: State, steps: seq<Step>)
    ensures Exec(s, steps).node.links == s.node.links
    decreases |steps|
  {
    if steps != [] {
      StepLinks(s, steps[0]);
      RunLinks(Next(s, steps[0]).0, steps[1..]);
    }
  }

  lemma StepOwned(s: State, step: Step, owner: map<string, Device>)
    requires Owned(s.node, owner) && RespectsOwners(s.node.links, step, owner)
    ensures Owned(Next(s, step).0.node, owner)
  {
    match step
    case PublishStep(q, c) =>
      if Accepted(q) && Provision(s.node, q, c).Some? && !DirectFlag(q) {
        AttachOwned(Provision(s.node, q, c).value, q, NeedsCreate(s.node, DeviceOf(q), c), c, owner);
      }
    case UnpublishStep(q, c) =>
      UnpublishMounts(s, q, c);
      RemoveTopOwned(s.node, Resolve(s.node.links, q.target), owner);
    case ExpandStep(q, c) => ExpandMounts(s, q, c);
    case Restart =>
  }

  lemma {:induction false} RunOwned(s: State, steps: seq<Step>, owner: map<string, Device>)
    requires Owned(s.node, owner) && AllRespectOwners(s.node.links, steps, owner)
    ensures Owned(Exec(s, steps).node, owner)
    decreases |steps|
  {
    if steps != [] {
      StepOwned(s, steps[0], owner);
      StepLinks(s, steps[0]);
      assert AllRespectOwners(s.node.links, steps[1..], owner);
      RunOwned(Next(s, steps[0]).0, steps[1..], owner);
    }
  }

  lemma OwnedCallIsOwn(r: ResizeCall, owner: map<string, Device>)
    requires Owned(r.n, owner) && Owns(r.n.links, owner, r.target, r.dev)
    ensures MountIsOwn(r)
  {
    var path := Resolve(r.n.links, r.target);
    if TopMount(r.n.mounts, path).Some? { OwnedTop(r.n, path, owner); }
  }

  lemma OwnedAtResize(n: Node, q: PublishRequest, c: Commands, owner: map<string, Device>)
    requires Owned(n, owner) && Owns(n.links, owner, q.target, DeviceOf(q)) && NodeAtResize(n, q, c).Some?
    ensures MountIsOwn(ResizeCall(NodeAtResize(n, q, c).value, DeviceOf(q), q.target, c))
  {
    MountsAtResize(n, q, c);
    OwnedSnoc(n, NewMount(n.links, q), owner);
    assert NodeAtResize(n, q, c).value.links == n.links;
    OwnedCallIsOwn(ResizeCall(NodeAtResize(n, q, c).value, DeviceOf(q), q.target, c), owner);
  }

  lemma StepResizesOwn(s: State, step: Step, owner: map<string, Device>)
    requires Owned(s.node, owner) && RespectsOwners(s.node.links, step, owner)
    ensures ResizesOwn(s, step)
  {
    if ResizeCallOf(s, step).Some? {
      match step
      case PublishStep(q, c) => OwnedAtResize(s.node, q, c, owner);
      case ExpandStep(q, c) => OwnedCallIsOwn(ResizeCallOf(s, step).value, owner);
    }
  }

  /** When each target belongs to one volume, every resize meets its own mount. */
  lemma {:induction false} OwnersResizeOwn(s: State, steps: seq<Step>, owner: map<string, Device>)
    requires Owned(s.node, owner) && AllRespectOwners(s.node.links, steps, owner)
    ensures AllResizeOwn(s, steps)
    decreases |steps|
  {
    if steps != [] {
      StepResizesOwn(s, steps[0], owner);
      StepOwned(s, steps[0], owner);
      StepLinks(s, steps[0]);
      assert AllRespectOwners(s.node.links, steps[1..], owner);
      OwnersResizeOwn(Next(s, steps[0]).0, steps[1..], owner);
    }
  }

  /** No filesystem is one that grows through its mount path. */
  ghost predicate AllByDevice(n: Node) {
    forall d :: d in n.fs ==> HowToGrow(n.fs[d].fstype) != ByMountPath
  }

  predicate FormatsByDevice(step: Step) {
    step.PublishStep? ==> HowToGrow(FsTypeOf(step.publish)) != ByMountPath
  }

  lemma ResizeByDevice(n: Node, dev: Device, target: string, c: Commands)
    requires AllByDevice(n)
    ensures AllByDevice(ResizeVolume(n, dev, target, c).node)
  {
    var n1 := LvExtend(n, dev, RequestedBytes(c.resizePv), c.lvextend);
    if n1.Some? {
      assert AllByDevice(n1.value);
      var g := GrownDevice(n1.value, dev, target);
      if g.Some? { assert AllByDevice(Grow(n1.value, g.value)); }
    }
  }

  lemma ByDeviceBeforeResize(n: Node, q: PublishRequest, c: Commands)
    requires AllByDevice(n) && HowToGrow(FsTypeOf(q)) != ByMountPath
    ensures FormatIfBlank(n, q, c).Some? ==> AllByDevice(FormatIfBlank(n, q, c).value)
    ensures NodeAtResize(n, q, c).Some? ==> AllByDevice(NodeAtResize(n, q, c).value)
  {
  }

  lemma AttachByDevice(n: Node, q: PublishRequest, created: bool, c: Commands)
    requires AllByDevice(n) && HowToGrow(FsTypeOf(q)) != ByMountPath
    ensures AllByDevice(Attach(n, q, created, c).0)
  {
    AttachStages(n, q, created, c);
    ByDeviceBeforeResize(n, q, c);
    if NodeAtResize(n, q, c).Some? { ResizeByDevice(NodeAtResize(n, q, c).value, DeviceOf(q), q.target, c); }
  }

  lemma PublishByDevice(s: State, q: PublishRequest, c: Commands)
    requires AllByDevice(s.node) && HowToGrow(FsTypeOf(q)) != ByMountPath
    ensures AllByDevice(Publish(s, q, c).0.node) && ResizesOwn(s, PublishStep(q, c))
  {
    ByDeviceBeforeResize(s.node, q, c);
    if Accepted(q) && Provision(s.node, q, c).Some? {
      var n := Provision(s.node, q, c).value;
      assert AllByDevice(n);
      if !DirectFlag(q) { AttachByDevice(n, q, NeedsCreate(s.node, DeviceOf(q), c), c); }
    }
  }

  lemma StepByDevice(s: State, step: Step)
    requires AllByDevice(s.node) && FormatsByDevice(step)
    ensures AllByDevice(Next(s, step).0.node) && ResizesOwn(s, step)
  {
    match step
    case PublishStep(q, c) => PublishByDevice(s, q, c);
    case UnpublishStep(q, c) => UnpublishFrame(s, q, c);
    case ExpandStep(q, c) =>
      if c.pv.Some? { ResizeByDevice(s.node, Device(VgOfPv(c.pv.value), q.volumeId), q.target, c); }
    case Restart =>
  }

  /** Without xfs and btrfs every resize grows its own filesystem, whoever uses which target. */
  lemma {:induction false} ByDeviceResizesOwn(s: State, steps: seq<Step>)
    requires AllByDevice(s.node) && forall i :: 0 <= i < |steps| ==> FormatsByDevice(steps[i])
    ensures AllResizeOwn(s, steps)
    decreases |steps|
  {
    if steps != [] {
      StepByDevice(s, steps[0]);
      assert forall i :: 0 <= i < |steps[1..]| ==> FormatsByDevice(steps[1..][i]);
      ByDeviceResizesOwn(Next(s, steps[0]).0, steps[1..]);
    }
  }

  /** With xfs or btrfs the condition is needed: an expand of one volume through a target where another
      volume of the same type is mounted succeeds, works on the other one, and leaves the expanded
      volume's own filesystem smaller than its volume. */
  lemma ForeignMountIsGrown(s: State, q: ExpandRequest, c: Commands, other: Device)
    requires Full(s.node) && ResizeCallOf(s, ExpandStep(q, c)).Some? && c.resizefs
    requires var r := ResizeCallOf(s, ExpandStep(q, c)).value;
      && NodeAtResizeFs(r).Some? && r.dev in s.node.fs && other in s.node.fs && other != r.dev
      && HowToGrow(s.node.fs[r.dev].fstype) == ByMountPath && s.node.fs[other].fstype == s.node.fs[r.dev].fstype
      && MountedAt(s.node, q.target)
      && TopMount(s.node.mounts, Resolve(s.node.links, q.target)).value.source == Volume(other)
    ensures Expand(s, q, c).1 == Success
    ensures var n', dev := Expand(s, q, c).0.node, ResizeCallOf(s, ExpandStep(q, c)).value.dev;
      && dev in n'.fs && dev in n'.lvs && n'.fs[dev].size < n'.lvs[dev].size && n'.fs[dev] == s.node.fs[dev]
      && n'.lvs == NodeAtResizeFs(ResizeCallOf(s, ExpandStep(q, c)).value).value.lvs
  {
    var r := ResizeCallOf(s, ExpandStep(q, c)).value;
    var n1 := NodeAtResizeFs(r).value;
    assert ResizeVolume(r.n, r.dev, r.target, c) == Resized(Grow(n1, other), true);
  }
}
