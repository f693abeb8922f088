/** What the handlers make of the raw fields of a request and of a persistent volume: the group, the
    types, the stripes, the mount options, the shown size, and the answer in every case. */
module Requests {
  import opened GoStrings
  import opened Mounts
  import opened Sizes
  import opened Host
  import opened NodeServer
  import opened Runs
  import opened Retry
  import opened MountRuns

  // ---------- the raw fields ----------

  /** The context gives the key this value, or has no such key and this is the default. */
  predicate Says(context: map<string, string>, key: string, default: string, value: string) {
    if key in context then context[key] == value else value == default
  }

  /** The request carries an ID, a target and this group. */
  predicate Complete(q: PublishRequest, vg: string) {
    q.volumeId != "" && q.target != "" && vg != "" && "vgName" in q.context && q.context["vgName"] == vg
  }

  predicate AsksDirect(q: PublishRequest) {
    "direct" in q.context && q.context["direct"] in {"1", "t", "T", "TRUE", "true", "True"}
  }

  /** A publish is refused before anything happens exactly when its ID, its target or its group is
      missing or empty. */
  lemma RefusedIff(s: State, q: PublishRequest, c: Commands)
    ensures Publish(s, q, c).1 == Failure(InvalidArgument) <==>
      q.volumeId == "" || q.target == "" || "vgName" !in q.context || q.context["vgName"] == ""
    ensures Publish(s, q, c).1 == Failure(InvalidArgument) ==> Publish(s, q, c).0 == s
  {
  }

  /** The field that a publish leaves. */
  lemma FieldIsAsked(s: State, q: PublishRequest, c: Commands, vg: string)
    requires Complete(q, vg)
    ensures Publish(s, q, c).0.isDirect <==> AsksDirect(q)
  {
  }

  // ---------- creating a volume ----------

  /** What getPvInfo asks for: whole Gi, or whole Mi below one Gi. */
  function Asked(capacity: nat): nat {
    if capacity >= GI then capacity / GI * GI else capacity / MI * MI
  }

  lemma ChooseIsAsked(capacity: nat)
    ensures Bytes(Choose(capacity)) == Asked(capacity)
    ensures Asked(capacity) > 0 <==> capacity >= MI
  {
    ChooseBounds(capacity);
  }

  /** lvcreate cannot make a volume of so many stripes for the capacity that was looked up. */
  predicate LvRefused(n: Node, vg: string, stripes: nat, c: Commands) {
    !c.lvcreate || stripes == 0 || vg !in n.extents || n.extents[vg] == 0 || c.pv.None? || c.pv.value.capacity < MI
  }

  /** A volume of whole chunks that hold what is asked for, and no chunk more. */
  predicate Allocated(n: Node, dev: Device, chunk: nat, capacity: nat) {
    && dev in n.lvs && chunk > 0 && n.lvs[dev].chunk == chunk && n.lvs[dev].size % chunk == 0
    && Asked(capacity) <= n.lvs[dev].size < Asked(capacity) + chunk
  }

  lemma LvCreateAllocates(n: Node, dev: Device, stripes: nat, c: Commands)
    requires dev !in n.lvs
    ensures var r := LvCreate(n, dev, RequestedBytes(c.pv), stripes, c.lvcreate);
      && (r.None? <==> LvRefused(n, dev.vg, stripes, c))
      && (r.Some? ==> Allocated(r.value, dev, n.extents[dev.vg] * stripes, c.pv.value.capacity)
                      && r.value == n.(lvs := n.lvs[dev := r.value.lvs[dev]]))
  {
    if c.pv.Some? { ChooseIsAsked(c.pv.value.capacity); }
    if !LvRefused(n, dev.vg, stripes, c) {
      RoundUpIsWhole(Asked(c.pv.value.capacity), n.extents[dev.vg] * stripes);
    }
  }

  /** Creating the volume fails: the group cannot be made or checked, or lvcreate refuses. A striped volume
      has one stripe per PV of a local-disk group, and none, so that lvcreate refuses, for any other type. */
  predicate CreateFails(n: Node, vg: string, pvType: string, lvmType: string, c: Commands) {
    || (pvType == "localdisk" && c.createVg == None)
    || !c.vgck
    || (lvmType == "linear" && LvRefused(n, vg, 1, c))
    || (lvmType == "striping" && (pvType != "localdisk" || LvRefused(n, vg, c.createVg.value, c)))
  }

  lemma CreateVolumeIff(n: Node, dev: Device, pvType: string, lvmType: string, c: Commands)
    requires dev !in n.lvs
    ensures CreateVolume(n, dev, pvType, lvmType, c).None? <==> CreateFails(n, dev.vg, pvType, lvmType, c)
    ensures CreateVolume(n, dev, pvType, lvmType, c).Some? ==>
      var n' := CreateVolume(n, dev, pvType, lvmType, c).value;
      && (lvmType == "linear" ==> Allocated(n', dev, n.extents[dev.vg], c.pv.value.capacity))
      && (lvmType == "striping" ==> Allocated(n', dev, n.extents[dev.vg] * c.createVg.value, c.pv.value.capacity))
      && (lvmType !in {"linear", "striping"} ==> n'.lvs == n.lvs)
      && n'.lvs - {dev} == n.lvs
  {
    LvCreateAllocates(n, dev, 1, c);
    LvCreateAllocates(n, dev, 0, c);
    if c.createVg.Some? { LvCreateAllocates(n, dev, c.createVg.value, c); }
  }

  lemma ProvisionCreates(n: Node, q: PublishRequest, c: Commands, vg: string, pvType: string, lvmType: string)
    requires Complete(q, vg)
    requires Says(q.context, "pvType", "clouddisk", pvType) && Says(q.context, "lvmType", "linear", lvmType)
    requires c.statDevice && Device(vg, q.volumeId) !in n.lvs
    ensures Provision(n, q, c) == CreateVolume(n, Device(vg, q.volumeId), pvType, lvmType, c)
  {
  }

  /** Publishing a volume that does not exist, exactly: the answer is Aborted if and only if creating it
      fails, and then nothing has changed on the node. Otherwise a linear volume has the chunk of its
      group, a striped one a chunk of one extent per PV of its group, both are of the size asked for, an
      unknown type makes none, and every other volume stays. */
  lemma CreatesAsAsked(s: State, q: PublishRequest, c: Commands, vg: string, pvType: string, lvmType: string)
    requires Complete(q, vg)
    requires Says(q.context, "pvType", "clouddisk", pvType) && Says(q.context, "lvmType", "linear", lvmType)
    requires c.statDevice && Device(vg, q.volumeId) !in s.node.lvs
    ensures Publish(s, q, c).1 == Failure(Aborted) <==> CreateFails(s.node, vg, pvType, lvmType, c)
    ensures Publish(s, q, c).1 == Failure(Aborted) ==> Publish(s, q, c).0.node == s.node
    ensures Publish(s, q, c).1 != Failure(Aborted) ==>
      var n', dev := Publish(s, q, c).0.node, Device(vg, q.volumeId);
      && (lvmType == "linear" ==> Allocated(n', dev, s.node.extents[vg], c.pv.value.capacity))
      && (lvmType == "striping" ==> Allocated(n', dev, s.node.extents[vg] * c.createVg.value, c.pv.value.capacity))
      && (lvmType !in {"linear", "striping"} ==> n'.lvs == s.node.lvs)
      && n'.lvs - {dev} == s.node.lvs
  {
    ProvisionCreates(s.node, q, c, vg, pvType, lvmType);
    CreateVolumeIff(s.node, Device(vg, q.volumeId), pvType, lvmType, c);
    if Provision(s.node, q, c).Some? {
      AttachAnswers(Provision(s.node, q, c).value, q, true, c);
      CreatedKeepsLvs(Provision(s.node, q, c).value, q, c);
    }
  }

  lemma AttachKeepsVolumes(n: Node, q: PublishRequest, c: Commands)
    ensures Attach(n, q, false, c).0.lvs.Keys == n.lvs.Keys
  {
    AttachStages(n, q, false, c);
    LvsAtResize(n, q, c);
    if NodeAtResize(n, q, c).Some? { ResizeWorksOn(NodeAtResize(n, q, c).value, DeviceOf(q), q.target, c); }
  }

  /** A volume that exists, or whose device cannot be looked at, is not created. */
  lemma ExistingIsNotCreated(s: State, q: PublishRequest, c: Commands, vg: string)
    requires Complete(q, vg) && (!c.statDevice || Device(vg, q.volumeId) in s.node.lvs)
    ensures Publish(s, q, c).1 != Failure(Aborted) && Publish(s, q, c).0.node.lvs.Keys == s.node.lvs.Keys
  {
    AttachAnswers(s.node, q, false, c);
    AttachKeepsVolumes(s.node, q, c);
  }

  // ---------- the answers of publish ----------

  /** grep failed and said so. */
  predicate GrepFailed(c: Commands) {
    !c.grep.ok && TrimSpace(c.grep.output) != ""
  }

  lemma AttachAnswers(n: Node, q: PublishRequest, created: bool, c: Commands)
    requires q.target != ""
    ensures Attach(n, q, created, c).1 in {Success, Failure(Internal), Panic}
    ensures Attach(n, q, created, c).1 == Panic <==> GrepFailed(c) && c.statTarget == Present
    ensures GrepFailed(c) && (c.statTarget != Absent || !c.mkdir) ==>
      Attach(n, q, created, c).1 != Success && Attach(n, q, created, c).0 == n
  {
  }

  /** Publish panics exactly when a mounting publish gets past the create step, grep fails with a message
      and the target exists. When the target cannot be looked at, or is absent and cannot be made, the
      answer is Internal. Either way nothing is formatted or mounted. */
  lemma PublishPanicsIff(s: State, q: PublishRequest, c: Commands, vg: string)
    requires Complete(q, vg)
    ensures Publish(s, q, c).1 == Panic <==>
      !AsksDirect(q) && Publish(s, q, c).1 != Failure(Aborted) && GrepFailed(c) && c.statTarget == Present
    ensures Publish(s, q, c).1 in {Success, Failure(Aborted), Failure(Internal), Panic}
    ensures !AsksDirect(q) && GrepFailed(c) && (c.statTarget != Absent || !c.mkdir) ==>
      Publish(s, q, c).1 != Success && Publish(s, q, c).0.node.fs == s.node.fs
      && Publish(s, q, c).0.node.mounts == s.node.mounts
  {
    if Provision(s.node, q, c).Some? {
      AttachAnswers(Provision(s.node, q, c).value, q, NeedsCreate(s.node, DeviceOf(q), c), c);
    }
  }

  /** A direct publish that gets past the create step records the device and the filesystem type for the
      target, if the entry can be added, and formats and mounts nothing. */
  lemma DirectEntryIsAsked(s: State, q: PublishRequest, c: Commands, vg: string, fstype: string)
    requires Complete(q, vg) && AsksDirect(q) && Says(q.context, "fsType", "ext4", fstype)
    requires Publish(s, q, c).1 != Failure(Aborted)
    ensures var n' := Publish(s, q, c).0.node;
      && Publish(s, q, c).1 == (if c.directAdd then Success else Failure(Internal))
      && n'.direct == (if c.directAdd
           then s.node.direct[q.target := DirectVolume(Device(vg, q.volumeId), fstype)] else s.node.direct)
      && n'.fs == s.node.fs && n'.mounts == s.node.mounts
  {
  }

  // ---------- the mount and the filesystem that publish makes ----------

  lemma NewMountIsAsked(links: map<string, string>, q: PublishRequest, vg: string, fstype: string)
    requires Complete(q, vg) && Says(q.context, "fsType", "ext4", fstype)
    ensures var m := NewMount(links, q);
      && Shown(m).device == Escape("/dev/" + vg + "/" + q.volumeId) && m.source == Volume(Device(vg, q.volumeId))
      && m.path == (if q.target in links then links[q.target] else q.target) && m.fstype == fstype
      && m.opts != [] && (m.opts[0] == "ro" <==> q.readonly) && (m.opts[0] == "rw" <==> !q.readonly)
      && m.opts[1..] == q.mountFlags
  {
  }

  /** A successful mounting publish of a target that no line of the table holds adds one mount after the
      others: from /dev/group/volume, on the resolved target, of the type asked for, read-only exactly when
      the request says so, with the request's flags after that. */
  lemma MountsAsAsked(s: State, q: PublishRequest, c: Commands, vg: string, fstype: string)
    requires Complete(q, vg) && !AsksDirect(q) && Says(q.context, "fsType", "ext4", fstype)
    requires GrepLiteral(q.target) && c.grep == Grep(q.target, TableText(s.node)) && !SeenMounted(s.node, q.target)
    requires Publish(s, q, c).1 == Success
    ensures var old_, ms := s.node.mounts, Publish(s, q, c).0.node.mounts;
      && |ms| == |old_| + 1 && ms[..|old_|] == old_
      && var m := ms[|old_|];
      && Shown(m).device == Escape("/dev/" + vg + "/" + q.volumeId) && m.source == Volume(Device(vg, q.volumeId))
      && m.path == (if q.target in s.node.links then s.node.links[q.target] else q.target) && m.fstype == fstype
      && m.opts != [] && (m.opts[0] == "ro" <==> q.readonly) && (m.opts[0] == "rw" <==> !q.readonly)
      && m.opts[1..] == q.mountFlags
  {
    PublishMountList(s, q, c);
    NewMountIsAsked(s.node.links, q, vg, fstype);
  }

  /** A blank device that a mounting publish gets to use carries the filesystem asked for, made in this call. */
  lemma FormatsAsAsked(s: State, q: PublishRequest, c: Commands, vg: string, fstype: string)
    requires Valid(s.node) && HonestPublish(s, q, c, PROBES) && Device(vg, q.volumeId) !in s.node.fs
    requires Complete(q, vg) && !AsksDirect(q) && Says(q.context, "fsType", "ext4", fstype)
    requires Publish(s, q, c).1 == Success
    ensures var n', dev := Publish(s, q, c).0.node, Device(vg, q.volumeId);
      dev in n'.fs && n'.fs[dev].fstype == fstype && n'.fs[dev].birth == s.node.mkfsRuns
  {
    PublishIsAttach(s, q, c);
    ProvisionKeeps(s.node, q, c);
    AttachFormats(Provision(s.node, q, c).value, q, NeedsCreate(s.node, DeviceOf(q), c), c);
  }

  lemma FormattedAtResize(n: Node, q: PublishRequest, c: Commands)
    requires Valid(n) && HonestProbe(n, DeviceOf(q), c) && DeviceOf(q) !in n.fs && NodeAtResize(n, q, c).Some?
    ensures var n2 := NodeAtResize(n, q, c).value;
      Valid(n2) && DeviceOf(q) in n2.fs && n2.fs[DeviceOf(q)] == Fs(FsTypeOf(q), n.lvs[DeviceOf(q)].size, n.mkfsRuns)
  {
    FormatKeeps(n, q, c);
  }

  lemma AttachFormats(n: Node, q: PublishRequest, created: bool, c: Commands)
    requires Valid(n) && HonestProbe(n, DeviceOf(q), c) && DeviceOf(q) !in n.fs
    requires Attach(n, q, created, c).1 == Success
    ensures var n' := Attach(n, q, created, c).0;
      && DeviceOf(q) in n'.fs && n'.fs[DeviceOf(q)].fstype == FsTypeOf(q)
      && n'.fs[DeviceOf(q)].birth == n.mkfsRuns
  {
    AttachAfterMounting(n, q, created, c);
    FormattedAtResize(n, q, c);
    ResizeKeeps(NodeAtResize(n, q, c).value, DeviceOf(q), q.target, c);
  }

  lemma NotMountedAsOtherType(n: Node, q: PublishRequest, c: Commands)
    requires Valid(n) && HonestProbe(n, DeviceOf(q), c) && DeviceOf(q) in n.fs
    requires n.fs[DeviceOf(q)].fstype != FsTypeOf(q) && MountednessForPublish(q.target, c) == NotMounted
    ensures NodeAtResize(n, q, c) == None
  {
    if FormatIfBlank(n, q, c).Some? { FormatKeeps(n, q, c); }
  }

  /** A device that carries another filesystem than the one asked for is neither formatted nor mounted at a
      target that no line of the table holds, and the publish fails. */
  lemma OtherTypeIsNotMounted(s: State, q: PublishRequest, c: Commands, vg: string, fstype: string)
    requires Valid(s.node) && HonestPublish(s, q, c, PROBES)
    requires Complete(q, vg) && !AsksDirect(q) && Says(q.context, "fsType", "ext4", fstype)
    requires Device(vg, q.volumeId) in s.node.fs && s.node.fs[Device(vg, q.volumeId)].fstype != fstype
    requires GrepLiteral(q.target) && c.grep == Grep(q.target, TableText(s.node)) && !SeenMounted(s.node, q.target)
    ensures Publish(s, q, c).1 != Success
    ensures Publish(s, q, c).0.node.mounts == s.node.mounts && Publish(s, q, c).0.node.fs == s.node.fs
  {
    MountCheckExact(s.node, q.target);
    NotMountedAsOtherType(s.node, q, c);
    FormatKeepsOther(s.node, q, c);
    AttachStages(s.node, q, false, c);
    if Attach(s.node, q, false, c).1 == Success { AttachAfterMounting(s.node, q, false, c); }
  }

  lemma FormatKeepsOther(n: Node, q: PublishRequest, c: Commands)
    requires Valid(n) && HonestProbe(n, DeviceOf(q), c) && DeviceOf(q) in n.fs
    ensures FormatIfBlank(n, q, c).Some? ==> FormatIfBlank(n, q, c) == Some(n)
  {
    if FormatIfBlank(n, q, c).Some? { FormatKeeps(n, q, c); }
  }

  // ---------- the shown size ----------

  /** The white space of a printed line. */
  predicate IsBlank(w: string) {
    forall i :: 0 <= i < |w| ==> w[i] in {' ', '\t', '\n', '\r'}
  }

  lemma BlankIsSpace(w: string)
    requires IsBlank(w)
    ensures AllSpace(w) && '.' !in w
  {
  }

  lemma ShownAround(before: string, s: string, after: string)
    requires IsBlank(before) && IsBlank(after) && s != "" && Trimmed(s) && '.' !in s
    ensures ShownSize(before + s + after) == Atoi(s)
  {
    BlankIsSpace(before);
    BlankIsSpace(after);
    SplitNone(before + s + after, '.');
    TrimmedAround(before, s, after);
  }

  lemma ShownFraction(before: string, s: string, fraction: string)
    requires IsBlank(before) && s != "" && Trimmed(s) && '.' !in s
    ensures ShownSize(before + s + "." + fraction) == Atoi(s)
  {
    BlankIsSpace(before);
    var text := before + s;
    SplitNone(text, '.');
    SplitAppend(text, fraction, '.');
    assert text == before + s + "";
    TrimmedAround(before, s, "");
  }

  /** The size is read off what lvdisplay prints: a number with white space around it, or with a fraction. */
  lemma SizeIsRead(n: int, before: string, after: string, fraction: string)
    requires IsInt64(n) && IsBlank(before) && IsBlank(after)
    ensures ShownSize(before + Itoa(n) + after) == Some(n)
    ensures ShownSize(before + Itoa(n) + "." + fraction) == Some(n)
  {
    ItoaHasNoDot(n);
    AtoiItoa(n);
    ShownAround(before, Itoa(n), after);
    ShownFraction(before, Itoa(n), fraction);
  }

  lemma ShownWithTail(s: string, after: string)
    requires IsBlank(after) && s != "" && Trimmed(s) && '.' !in s
    ensures ShownSize(s + after) == Atoi(s)
  {
    ShownAround("", s, after);
    assert "" + s + after == s + after;
  }

  lemma PrintedSizeIsRead(n: int)
    requires IsInt64(n)
    ensures ShownSize(Itoa(n) + "\n") == Some(n)
  {
    ItoaHasNoDot(n);
    AtoiItoa(n);
    ShownWithTail(Itoa(n), "\n");
  }

  lemma ItoaHasNoDot(n: int)
    ensures '.' !in Itoa(n) && Itoa(n) != "" && Trimmed(Itoa(n))
  {
    ItoaIsWord(n);
    var d := NatString(if n < 0 then -n else n);
    assert forall i :: 0 <= i < |d| ==> IsDigit(d[i]);
  }

  lemma TrimmedAround(before: string, s: string, after: string)
    requires AllSpace(before) && AllSpace(after) && Trimmed(s)
    ensures TrimSpace(before + s + after) == s
  {
    assert before + s + after == before + (s + after);
    TrimLeftSkips(before, s + after);
    if s == "" {
      assert s + after == after + "";
      TrimLeftSkips(after, "");
    } else {
      assert (s + after)[0] == s[0];
      TrimRightSkips(s, after);
    }
  }

  /** When lvdisplay fails or prints nothing but white space, the resize fails and changes nothing. */
  lemma NoSizeFails(n: Node, dev: Device, target: string, c: Commands)
    requires c.lvdisplay.Some? ==> IsBlank(c.lvdisplay.value)
    ensures ResizeVolume(n, dev, target, c) == Resized(n, false)
  {
    if c.lvdisplay.Some? {
      var w := c.lvdisplay.value;
      BlankIsSpace(w);
      SplitNone(w, '.');
      TrimmedAround(w, "", "");
      assert w + "" + "" == w;
    }
  }

  // ---------- the volume that expand grows ----------

  /** The group of a persistent volume: the one its allocation annotation names, or without a usable
      annotation the one its attributes name. */
  predicate GroupOf(pv: Pv, vg: string) {
    if pv.allocation.Info? && pv.allocation.vgName != "" then vg == pv.allocation.vgName
    else pv.attributes.Some? && "vgName" in pv.attributes.value && vg == pv.attributes.value["vgName"]
  }

  /** A mounting server's expand of a complete request. */
  predicate Expands(s: State, q: ExpandRequest) {
    q.volumeId != "" && q.target != "" && q.hasRange && !s.isDirect
  }

  /** Expand works on the volume of the group that the persistent volume names, and on no other volume. */
  lemma ExpandsNamedVolume(s: State, q: ExpandRequest, c: Commands, vg: string)
    requires Expands(s, q) && c.pv.Some? && GroupOf(c.pv.value, vg) && vg != ""
    ensures var n', dev := Expand(s, q, c).0.node, Device(vg, q.volumeId);
      n'.lvs.Keys == s.node.lvs.Keys && n'.lvs - {dev} == s.node.lvs - {dev}
  {
    assert VgOfPv(c.pv.value) == vg;
    ResizeWorksOn(s.node, Device(vg, q.volumeId), q.target, c);
  }

  /** That volume grows to what is asked for when the text that lvdisplay prints, newline and all, shows a
      size below the capacity and lvextend can reach more. */
  lemma ExpandGrowsNamedVolume(s: State, q: ExpandRequest, c: Commands, vg: string, pv: Pv)
    requires Expands(s, q) && c.pv.Some? && GroupOf(c.pv.value, vg) && vg != "" && c.resizePv == Some(pv)
    requires Device(vg, q.volumeId) in s.node.lvs && c.lvextend
    requires var lv := s.node.lvs[Device(vg, q.volumeId)];
      && IsInt64(lv.size) && c.lvdisplay == Some(Itoa(lv.size) + "\n")
      && lv.size < pv.capacity && lv.chunk > 0 && lv.size < Asked(pv.capacity)
    ensures var n', dev := Expand(s, q, c).0.node, Device(vg, q.volumeId);
      Allocated(n', dev, s.node.lvs[dev].chunk, pv.capacity) && n'.lvs[dev].size > s.node.lvs[dev].size
  {
    assert VgOfPv(c.pv.value) == vg;
    ResizeGrows(s.node, Device(vg, q.volumeId), q.target, c, pv);
  }

  lemma ResizeWorksOn(n: Node, dev: Device, target: string, c: Commands)
    ensures var n' := ResizeVolume(n, dev, target, c).node;
      n'.lvs.Keys == n.lvs.Keys && n'.lvs - {dev} == n.lvs - {dev}
  {
  }

  lemma ResizeExtends(n: Node, dev: Device, target: string, c: Commands, pv: Pv)
    requires c.resizePv == Some(pv) && dev in n.lvs && c.lvextend && n.lvs[dev].size < pv.capacity
    requires c.lvdisplay.Some? && ShownSize(c.lvdisplay.value) == Some(n.lvs[dev].size)
    requires n.lvs[dev].size < RoundUp(Bytes(Choose(pv.capacity)), n.lvs[dev].chunk)
    ensures var lvs := ResizeVolume(n, dev, target, c).node.lvs;
      dev in lvs && lvs[dev] == Lv(RoundUp(Bytes(Choose(pv.capacity)), n.lvs[dev].chunk), n.lvs[dev].chunk)
  {
  }

  lemma ResizeGrows(n: Node, dev: Device, target: string, c: Commands, pv: Pv)
    requires c.resizePv == Some(pv) && dev in n.lvs && IsInt64(n.lvs[dev].size)
    requires c.lvdisplay == Some(Itoa(n.lvs[dev].size) + "\n") && n.lvs[dev].size < pv.capacity
    requires c.lvextend && n.lvs[dev].chunk > 0 && Asked(pv.capacity) > n.lvs[dev].size
    ensures var n' := ResizeVolume(n, dev, target, c).node;
      Allocated(n', dev, n.lvs[dev].chunk, pv.capacity) && n'.lvs[dev].size > n.lvs[dev].size
  {
    PrintedSizeIsRead(n.lvs[dev].size);
    ChooseIsAsked(pv.capacity);
    RoundUpIsWhole(Asked(pv.capacity), n.lvs[dev].chunk);
    ResizeExtends(n, dev, target, c, pv);
  }

  /** A persistent volume that names no group makes expand answer Internal and change nothing. */
  lemma ExpandWithoutGroup(s: State, q: ExpandRequest, c: Commands)
    requires Expands(s, q) && c.pv.Some? && forall vg :: GroupOf(c.pv.value, vg) ==> vg == ""
    ensures Expand(s, q, c) == (s, Failure(Internal))
  {
    assert GroupOf(c.pv.value, VgOfPv(c.pv.value)) || VgOfPv(c.pv.value) == "";
  }

  /** When the printed size, newline and all, already reaches the capacity, expand succeeds and changes
      nothing. */
  lemma LargeEnoughIsLeft(s: State, q: ExpandRequest, c: Commands, vg: string, size: nat)
    requires Expands(s, q) && c.pv.Some? && GroupOf(c.pv.value, vg) && vg != ""
    requires IsInt64(size) && c.lvdisplay == Some(Itoa(size) + "\n")
    requires c.resizePv.Some? ==> c.resizePv.value.capacity <= size
    ensures Expand(s, q, c) == (s, Success)
  {
    assert VgOfPv(c.pv.value) == vg;
    LargeEnough(s.node, Device(vg, q.volumeId), q.target, c, size);
  }

  lemma LargeEnough(n: Node, dev: Device, target: string, c: Commands, size: nat)
    requires IsInt64(size) && c.lvdisplay == Some(Itoa(size) + "\n")
    requires c.resizePv.Some? ==> c.resizePv.value.capacity <= size
    ensures ResizeVolume(n, dev, target, c) == Resized(n, true)
  {
    PrintedSizeIsRead(size);
  }

  // ---------- the answers of expand and unpublish ----------

  /** Expand, in every case that does not reach the resize. */
  lemma ExpandAnswers(s: State, q: ExpandRequest, c: Commands)
    ensures Expand(s, q, c).1 == Failure(InvalidArgument) <==> q.volumeId == "" || q.target == ""
    ensures Expand(s, q, c).1 == Panic <==>
      q.volumeId != "" && q.target != "" && (!q.hasRange || (!s.isDirect && c.pv.None?))
    ensures Expand(s, q, c).1 in {Success, Failure(InvalidArgument), Failure(Internal), Panic}
    ensures Expand(s, q, c).1 in {Failure(InvalidArgument), Panic} ==> Expand(s, q, c).0 == s
  {
  }

  /** Unpublish, in every case. */
  lemma UnpublishAnswers(s: State, q: UnpublishRequest, c: Commands)
    ensures Unpublish(s, q, c).1 in {Success, Failure(InvalidArgument), Failure(NotFound), Failure(Internal)}
    ensures Unpublish(s, q, c).1 == Failure(InvalidArgument) <==> q.volumeId == ""
    ensures Unpublish(s, q, c).1 == Failure(NotFound) <==>
      q.volumeId != "" && q.target != "" && GrepFailed(c) && c.statTarget == Absent
    ensures Unpublish(s, q, c).1 == Success <==>
      && q.volumeId != "" && q.target != "" && !GrepFailed(c)
      && (c.grep.ok && Contains(TrimSpace(c.grep.output), q.target) ==> c.umount && MountedAt(s.node, q.target))
    ensures Unpublish(s, q, c).1 in {Failure(InvalidArgument), Failure(NotFound)} ==>
      Unpublish(s, q, c).0.node.mounts == s.node.mounts
  {
  }
}
