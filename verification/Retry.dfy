/** Calling again: what a repeated or retried publish does, what a retried expand hides, and the
    sizes that every success leaves behind. */
module Retry {
  import opened GoStrings
  import opened Mounts
  import opened FsProbe
  import opened Sizes
  import opened Host
  import opened NodeServer
  import opened Runs

  // ---------- a publish during which nothing fails ----------

  /** Commands that all succeed and report what is there. */
  predicate Smooth(n: Node, dev: Device, target: string, c: Commands)
    requires dev in n.lvs
  {
    && c.statDevice && c.mkfs && c.mount && c.lvextend && c.resizefs
    && c.grep == Grep(target, TableText(n))
    && HonestProbe(n, dev, c) && c.file.Some?
    && (dev in n.fs ==> c.blkid.Some? && ParseBlkid(c.blkid.value).Ok?)
    && c.lvdisplay.Some? && ShownSize(c.lvdisplay.value) == Some(n.lvs[dev].size)
  }

  /** What publish then finds out. */
  lemma SmoothFindings(n: Node, q: PublishRequest, c: Commands)
    requires DeviceOf(q) in n.lvs && GrepLiteral(q.target) && Valid(n) && FsTypeOf(q) != ""
    requires Smooth(n, DeviceOf(q), q.target, c)
    ensures MountednessForPublish(q.target, c) == if SeenMounted(n, q.target) then Mounted else NotMounted
    ensures FormatIfBlank(n, q, c) == if DeviceOf(q) in n.fs then Some(n) else MkFs(n, DeviceOf(q), FsTypeOf(q), true)
  {
    MountCheckExact(n, q.target);
  }

  /** The volume is at least as large as an lvcreate or lvextend for this capacity makes it. */
  predicate Settled(n: Node, dev: Device, capacity: nat) {
    dev in n.lvs && RoundUp(Bytes(Choose(capacity)), n.lvs[dev].chunk) <= n.lvs[dev].size
  }

  // ---------- repeating a successful publish ----------

  lemma ResizeSettles(n: Node, dev: Device, target: string, c: Commands)
    requires Valid(n) && dev in n.lvs && HonestSize(n, dev, c) && c.resizePv.Some? && ResizeVolume(n, dev, target, c).ok
    ensures var n' := ResizeVolume(n, dev, target, c).node;
      Settled(n', dev, c.resizePv.value.capacity) || n'.lvs[dev].size >= c.resizePv.value.capacity
  {
  }

  /** Once publish has mounted, or found the target mounted, the device carries a filesystem and the
      target is seen in the mount table. */
  lemma MountingIsSeen(n: Node, q: PublishRequest, c: Commands)
    requires Valid(n) && Plain(n.links, q.target)
    requires HonestProbe(n, DeviceOf(q), c) && HonestGrep(n, q.target, c) && NodeAtResize(n, q, c).Some?
    ensures var n' := NodeAtResize(n, q, c).value;
      Valid(n') && n'.lvs == n.lvs && DeviceOf(q) in n'.fs && SeenMounted(n', q.target)
  {
    FormatKeeps(n, q, c);
    var n1 := FormatIfBlank(n, q, c).value;
    var n2 := NodeAtResize(n, q, c).value;
    assert Valid(n2) && n2.lvs == n.lvs;
    if MountednessForPublish(q.target, c) == Mounted {
      MountCheckExact(n, q.target);
      assert n2.mounts == n.mounts;
    } else {
      assert n2.mounts[|n1.mounts|].path == q.target && n2.links == n.links;
      MountedIsSeen(n2, q.target);
    }
  }

  lemma AttachAfterMounting(n: Node, q: PublishRequest, created: bool, c: Commands)
    requires Attach(n, q, created, c).1 == Success
    ensures NodeAtResize(n, q, c).Some?
    ensures var n2 := NodeAtResize(n, q, c).value; var r := ResizeVolume(n2, DeviceOf(q), q.target, c);
      (created && Attach(n, q, created, c).0 == n2) || (!created && r.ok && Attach(n, q, created, c).0 == r.node)
  {
  }

  lemma AttachLeavesMounted(n: Node, q: PublishRequest, created: bool, c: Commands)
    requires Valid(n) && Plain(n.links, q.target)
    requires HonestProbe(n, DeviceOf(q), c) && HonestGrep(n, q.target, c)
    requires Attach(n, q, created, c).1 == Success
    ensures var n' := Attach(n, q, created, c).0;
      DeviceOf(q) in n'.lvs && DeviceOf(q) in n'.fs && SeenMounted(n', q.target)
  {
    AttachAfterMounting(n, q, created, c);
    MountingIsSeen(n, q, c);
    var n2 := NodeAtResize(n, q, c).value;
    ResizeFrame(n2, DeviceOf(q), q.target, c);
    ResizeKeeps(n2, DeviceOf(q), q.target, c);
    SeenByMounts(n2, Attach(n, q, created, c).0, q.target);
  }

  lemma SeenByMounts(n: Node, n': Node, target: string)
    requires n'.mounts == n.mounts
    ensures SeenMounted(n', target) == SeenMounted(n, target)
  {
  }

  lemma ProvisionSettles(n: Node, q: PublishRequest, c: Commands)
    requires NeedsCreate(n, DeviceOf(q), c) && c.pv.Some? && Provision(n, q, c).Some?
    requires DeviceOf(q) in Provision(n, q, c).value.lvs
    ensures Settled(Provision(n, q, c).value, DeviceOf(q), c.pv.value.capacity)
    ensures var lv := Provision(n, q, c).value.lvs[DeviceOf(q)];
      lv.size == RoundUp(Bytes(Choose(c.pv.value.capacity)), lv.chunk)
  {
  }

  lemma SettledSame(n: Node, n': Node, dev: Device, capacity: nat)
    requires Settled(n, dev, capacity) && n'.lvs == n.lvs
    ensures Settled(n', dev, capacity)
  {
  }

  lemma CreatedKeepsLvs(n: Node, q: PublishRequest, c: Commands)
    ensures Attach(n, q, true, c).0.lvs == n.lvs
  {
    AttachStages(n, q, true, c);
    LvsAtResize(n, q, c);
  }

  /** Attaching the volume that publish has just created, or found, settles it. */
  lemma AttachSettles(s: State, q: PublishRequest, c: Commands, pv: Pv)
    requires Valid(s.node) && Provision(s.node, q, c).Some? && Plain(s.node.links, q.target)
    requires c.pv == Some(pv) && c.resizePv == Some(pv)
    requires var n := Provision(s.node, q, c).value;
      && HonestProbe(n, DeviceOf(q), c) && HonestGrep(n, q.target, c) && HonestSize(n, DeviceOf(q), c)
      && Attach(n, q, NeedsCreate(s.node, DeviceOf(q), c), c).1 == Success
    ensures var n' := Attach(Provision(s.node, q, c).value, q, NeedsCreate(s.node, DeviceOf(q), c), c).0;
      DeviceOf(q) in n'.lvs && (Settled(n', DeviceOf(q), pv.capacity) || n'.lvs[DeviceOf(q)].size >= pv.capacity)
  {
    var n, created := Provision(s.node, q, c).value, NeedsCreate(s.node, DeviceOf(q), c);
    ProvisionKeeps(s.node, q, c);
    AttachLeavesMounted(n, q, created, c);
    if created {
      CreatedKeepsLvs(n, q, c);
      ProvisionSettles(s.node, q, c);
      SettledSame(n, Attach(n, q, created, c).0, DeviceOf(q), pv.capacity);
    } else {
      AttachAfterMounting(n, q, created, c);
      MountingIsSeen(n, q, c);
      ResizeSettles(NodeAtResize(n, q, c).value, DeviceOf(q), q.target, c);
    }
  }

  /** A successful mounting publish is a successful attach of the volume that it created or found. */
  lemma PublishIsAttach(s: State, q: PublishRequest, c: Commands)
    requires !DirectFlag(q) && Publish(s, q, c).1 == Success
    ensures Provision(s.node, q, c).Some? && Provision(s.node, q, c).value.mounts == s.node.mounts
    ensures var r := Attach(Provision(s.node, q, c).value, q, NeedsCreate(s.node, DeviceOf(q), c), c);
      r.1 == Success && Publish(s, q, c).0 == State(false, r.0)
  {
  }

  /** A successful mounting publish settles the volume for its capacity, or finds it large enough. */
  lemma PublishSettles(s: State, q: PublishRequest, c: Commands, pv: Pv)
    requires Valid(s.node) && HonestPublish(s, q, c, EVERYTHING) && Plain(s.node.links, q.target)
    requires c.pv == Some(pv) && c.resizePv == Some(pv)
    requires !DirectFlag(q) && Publish(s, q, c).1 == Success
    ensures var n' := Publish(s, q, c).0.node; var dev := DeviceOf(q);
      && Valid(n') && dev in n'.lvs && dev in n'.fs && SeenMounted(n', q.target)
      && (Settled(n', dev, pv.capacity) || n'.lvs[dev].size >= pv.capacity)
  {
    var n, created := Provision(s.node, q, c).value, NeedsCreate(s.node, DeviceOf(q), c);
    PublishIsAttach(s, q, c);
    ProvisionKeeps(s.node, q, c);
    AttachKeeps(n, q, created, c);
    AttachLeavesMounted(n, q, created, c);
    AttachSettles(s, q, c, pv);
  }

  lemma SettledAttach(n: Node, q: PublishRequest, c: Commands, pv: Pv)
    requires GrepLiteral(q.target) && Valid(n) && c.resizePv == Some(pv)
    requires DeviceOf(q) in n.lvs && DeviceOf(q) in n.fs && SeenMounted(n, q.target)
    requires Settled(n, DeviceOf(q), pv.capacity) || n.lvs[DeviceOf(q)].size >= pv.capacity
    requires Smooth(n, DeviceOf(q), q.target, c)
    ensures Attach(n, q, false, c) ==
      (n, if n.lvs[DeviceOf(q)].size >= pv.capacity then Success else Failure(Internal))
  {
    MountCheckExact(n, q.target);
    assert MountednessForPublish(q.target, c) == Mounted;
    assert FormatIfBlank(n, q, c) == Some(n);
    SettledResize(n, DeviceOf(q), q.target, c, pv);
  }

  lemma SettledResize(n: Node, dev: Device, target: string, c: Commands, pv: Pv)
    requires c.resizePv == Some(pv) && dev in n.lvs
    requires Settled(n, dev, pv.capacity) || n.lvs[dev].size >= pv.capacity
    requires c.lvdisplay.Some? && ShownSize(c.lvdisplay.value) == Some(n.lvs[dev].size)
    ensures ResizeVolume(n, dev, target, c) == Resized(n, n.lvs[dev].size >= pv.capacity)
  {
  }

  lemma PublishOfExisting(s: State, q: PublishRequest, c: Commands)
    requires Accepted(q) && !DirectFlag(q) && DeviceOf(q) in s.node.lvs
    ensures Publish(s, q, c) == (State(false, Attach(s.node, q, false, c).0), Attach(s.node, q, false, c).1)
  {
  }

  /** A smooth publish on a settled, formatted and visibly mounted volume changes nothing, and
      succeeds exactly when the volume reaches the capacity. */
  lemma SettledPublish(s: State, q: PublishRequest, c: Commands, pv: Pv)
    requires Accepted(q) && !DirectFlag(q) && GrepLiteral(q.target) && Valid(s.node) && c.resizePv == Some(pv)
    requires DeviceOf(q) in s.node.lvs && DeviceOf(q) in s.node.fs && SeenMounted(s.node, q.target)
    requires Settled(s.node, DeviceOf(q), pv.capacity) || s.node.lvs[DeviceOf(q)].size >= pv.capacity
    requires Smooth(s.node, DeviceOf(q), q.target, c)
    ensures Publish(s, q, c) == (State(false, s.node),
      if s.node.lvs[DeviceOf(q)].size >= pv.capacity then Success else Failure(Internal))
  {
    PublishOfExisting(s, q, c);
    SettledAttach(s.node, q, c, pv);
  }

  /** Idempotence of publish, exactly: after a successful mounting publish, repeating the request
      with nothing failing leaves the whole state unchanged, and the repeat succeeds if and only if
      the extent-rounded size of the volume reaches the capacity. */
  lemma RepeatedPublish(s: State, q: PublishRequest, c1: Commands, c2: Commands, pv: Pv)
    requires Valid(s.node) && HonestPublish(s, q, c1, EVERYTHING) && Plain(s.node.links, q.target)
    requires c1.pv == Some(pv) && c1.resizePv == Some(pv) && c2.resizePv == Some(pv)
    requires !DirectFlag(q) && Publish(s, q, c1).1 == Success
    requires var n := Publish(s, q, c1).0.node;
      DeviceOf(q) in n.lvs ==> Smooth(n, DeviceOf(q), q.target, c2)
    ensures DeviceOf(q) in Publish(s, q, c1).0.node.lvs
    ensures var s1 := Publish(s, q, c1).0;
      && Publish(s1, q, c2).0 == s1
      && (Publish(s1, q, c2).1 == Success <==> s1.node.lvs[DeviceOf(q)].size >= pv.capacity)
  {
    PublishSettles(s, q, c1, pv);
    var s1 := Publish(s, q, c1).0;
    assert s1.isDirect == false;
    SettledPublish(s1, q, c2, pv);
  }

  // ---------- retrying a publish that got only part of the way ----------

  /** What a publish that has just created the volume leaves, however it ended. */
  lemma AttachNew(n: Node, q: PublishRequest, c: Commands)
    requires Valid(n) && DeviceOf(q) !in n.fs && DeviceOf(q) in n.lvs && HonestProbe(n, DeviceOf(q), c)
    ensures var n' := Attach(n, q, true, c).0;
      Valid(n') && n'.lvs == n.lvs && (DeviceOf(q) in n'.fs ==> n'.fs[DeviceOf(q)].fstype == FsTypeOf(q))
  {
    AttachKeeps(n, q, true, c);
    CreatedKeepsLvs(n, q, c);
  }

  /** A smooth publish on a settled volume that is blank or carries the requested filesystem. */
  lemma SmoothOnSettled(s: State, q: PublishRequest, c: Commands, pv: Pv)
    requires Accepted(q) && !DirectFlag(q) && GrepLiteral(q.target) && Valid(s.node) && c.resizePv == Some(pv)
    requires Settled(s.node, DeviceOf(q), pv.capacity) && FsTypeOf(q) != ""
    requires DeviceOf(q) in s.node.fs ==> s.node.fs[DeviceOf(q)].fstype == FsTypeOf(q)
    requires Smooth(s.node, DeviceOf(q), q.target, c)
    ensures Publish(s, q, c).1 == Success <==> s.node.lvs[DeviceOf(q)].size >= pv.capacity
    ensures Publish(s, q, c).0.node.lvs == s.node.lvs
  {
    var n, dev := s.node, DeviceOf(q);
    SmoothFindings(n, q, c);
    var n1 := FormatIfBlank(n, q, c).value;
    assert n1.fs[dev].fstype == FsTypeOf(q) && n1.lvs == n.lvs;
    var n2 := MountIfNeeded(n1, q, SeenMounted(n, q.target), c).value;
    assert n2.lvs == n.lvs;
    SettledResize(n2, dev, q.target, c, pv);
  }

  /** After a publish that created the volume and then ended anywhere, a retry during which nothing
      fails succeeds if and only if what LVM allocated reaches the capacity. */
  lemma RetryAfterCreate(s: State, q: PublishRequest, c1: Commands, c2: Commands, pv: Pv)
    requires Valid(s.node) && HonestPublish(s, q, c1, PROBES) && GrepLiteral(q.target) && FsTypeOf(q) != ""
    requires c1.pv == Some(pv) && c2.resizePv == Some(pv)
    requires Accepted(q) && !DirectFlag(q) && NeedsCreate(s.node, DeviceOf(q), c1)
    requires DeviceOf(q) in Publish(s, q, c1).0.node.lvs
    requires Smooth(Publish(s, q, c1).0.node, DeviceOf(q), q.target, c2)
    ensures var s1 := Publish(s, q, c1).0; var lv := s1.node.lvs[DeviceOf(q)];
      && lv.size == RoundUp(Bytes(Choose(pv.capacity)), lv.chunk)
      && (Publish(s1, q, c2).1 == Success <==> RoundUp(Bytes(Choose(pv.capacity)), lv.chunk) >= pv.capacity)
  {
    var dev := DeviceOf(q);
    assert Provision(s.node, q, c1).Some?;
    var n := Provision(s.node, q, c1).value;
    ProvisionKeeps(s.node, q, c1);
    CreatedKeepsLvs(n, q, c1);
    ProvisionSettles(s.node, q, c1);
    AttachNew(n, q, c1);
    var s1 := Publish(s, q, c1).0;
    assert s1.node == Attach(n, q, true, c1).0;
    SettledSame(n, s1.node, dev, pv.capacity);
    SmoothOnSettled(s1, q, c2, pv);
  }

  /** With chunks that divide a Gi, such a retry of a volume of at least one Gi succeeds exactly for
      whole Gi. */
  lemma RetrySucceedsIffWholeGi(s: State, q: PublishRequest, c1: Commands, c2: Commands, pv: Pv)
    requires Valid(s.node) && HonestPublish(s, q, c1, PROBES) && GrepLiteral(q.target) && FsTypeOf(q) != ""
    requires c1.pv == Some(pv) && c2.resizePv == Some(pv)
    requires Accepted(q) && !DirectFlag(q) && NeedsCreate(s.node, DeviceOf(q), c1)
    requires DeviceOf(q) in Publish(s, q, c1).0.node.lvs
    requires Smooth(Publish(s, q, c1).0.node, DeviceOf(q), q.target, c2)
    requires var chunk := Publish(s, q, c1).0.node.lvs[DeviceOf(q)].chunk;
      pv.capacity >= GI && chunk > 0 && GI % chunk == 0
    ensures Publish(Publish(s, q, c1).0, q, c2).1 == Success <==> pv.capacity % GI == 0
  {
    RetryAfterCreate(s, q, c1, c2, pv);
    ReachesIffWhole(pv.capacity, Publish(s, q, c1).0.node.lvs[DeviceOf(q)].chunk);
  }

  /** Whatever the extents, nothing is lost on whole Gi and on whole Mi below one Gi: every retry
      succeeds. */
  lemma RetryOfWholeUnitsSucceeds(s: State, q: PublishRequest, c1: Commands, c2: Commands, pv: Pv)
    requires Valid(s.node) && HonestPublish(s, q, c1, PROBES) && GrepLiteral(q.target) && FsTypeOf(q) != ""
    requires c1.pv == Some(pv) && c2.resizePv == Some(pv)
    requires Accepted(q) && !DirectFlag(q) && NeedsCreate(s.node, DeviceOf(q), c1)
    requires DeviceOf(q) in Publish(s, q, c1).0.node.lvs
    requires Smooth(Publish(s, q, c1).0.node, DeviceOf(q), q.target, c2)
    requires if pv.capacity < GI then pv.capacity % MI == 0 else pv.capacity % GI == 0
    ensures Publish(Publish(s, q, c1).0, q, c2).1 == Success
  {
    RetryAfterCreate(s, q, c1, c2, pv);
    ChooseExact(pv.capacity);
  }

  // ---------- a volume that fell short stays short ----------

  /** A volume for which lvextend refuses the size that is asked for, and which is below the capacity. */
  predicate Short(n: Node, dev: Device, capacity: nat) {
    Settled(n, dev, capacity) && n.lvs[dev].size < capacity
  }

  predicate LooksUp(c: Commands, capacity: nat) {
    c.resizePv.Some? && c.resizePv.value.capacity == capacity
  }

  /** A step that, if it works on the device, finds the given capacity. */
  predicate FindsCapacity(step: Step, dev: Device, capacity: nat) {
    match step
    case PublishStep(q, c) => DeviceOf(q) == dev ==> LooksUp(c, capacity)
    case ExpandStep(q, c) => c.pv.Some? && Device(VgOfPv(c.pv.value), q.volumeId) == dev ==> LooksUp(c, capacity)
    case _ => true
  }

  predicate AllFindCapacity(steps: seq<Step>, dev: Device, capacity: nat) {
    forall i :: 0 <= i < |steps| ==> FindsCapacity(steps[i], dev, capacity)
  }

  /** Resizing the short volume fails, and resizing another one leaves it alone. */
  lemma ResizeShort(n: Node, d: Device, target: string, c: Commands, dev: Device, capacity: nat)
    requires Short(n, dev, capacity) && HonestSize(n, d, c) && (d == dev ==> LooksUp(c, capacity))
    ensures Short(ResizeVolume(n, d, target, c).node, dev, capacity)
    ensures d == dev ==> !ResizeVolume(n, d, target, c).ok
  {
  }

  lemma LvsAtResize(n: Node, q: PublishRequest, c: Commands)
    ensures FormatIfBlank(n, q, c).Some? ==> FormatIfBlank(n, q, c).value.lvs == n.lvs
    ensures NodeAtResize(n, q, c).Some? ==> NodeAtResize(n, q, c).value.lvs == n.lvs
  {
  }

  lemma AttachShort(n: Node, q: PublishRequest, created: bool, c: Commands, dev: Device, capacity: nat)
    requires Short(n, dev, capacity) && HonestSize(n, DeviceOf(q), c)
    requires DeviceOf(q) == dev ==> LooksUp(c, capacity) && !created
    ensures Short(Attach(n, q, created, c).0, dev, capacity)
    ensures DeviceOf(q) == dev ==> Attach(n, q, created, c).1 != Success
  {
    AttachStages(n, q, created, c);
    LvsAtResize(n, q, c);
    if NodeAtResize(n, q, c).Some? {
      ResizeShort(NodeAtResize(n, q, c).value, DeviceOf(q), q.target, c, dev, capacity);
    }
    if Attach(n, q, created, c).1 == Success { AttachAfterMounting(n, q, created, c); }
  }

  lemma PublishShort(s: State, q: PublishRequest, c: Commands, dev: Device, capacity: nat, trust: Trust)
    requires Short(s.node, dev, capacity) && HonestPublish(s, q, c, trust) && trust.sizes
    requires DeviceOf(q) == dev ==> LooksUp(c, capacity)
    ensures Short(Publish(s, q, c).0.node, dev, capacity)
    ensures DeviceOf(q) == dev && !DirectFlag(q) ==> Publish(s, q, c).1 != Success
  {
    if Accepted(q) && Provision(s.node, q, c).Some? {
      var n := Provision(s.node, q, c).value;
      assert Short(n, dev, capacity);
      if !DirectFlag(q) { AttachShort(n, q, NeedsCreate(s.node, DeviceOf(q), c), c, dev, capacity); }
    }
  }

  lemma StepShort(s: State, step: Step, dev: Device, capacity: nat, trust: Trust)
    requires Short(s.node, dev, capacity) && HonestStep(s, step, trust) && trust.sizes
    requires FindsCapacity(step, dev, capacity)
    ensures Short(Next(s, step).0.node, dev, capacity)
  {
    match step
    case PublishStep(q, c) => PublishShort(s, q, c, dev, capacity, trust);
    case UnpublishStep(q, c) => UnpublishFrame(s, q, c);
    case ExpandStep(q, c) =>
      if c.pv.Some? {
        ResizeShort(s.node, Device(VgOfPv(c.pv.value), q.volumeId), q.target, c, dev, capacity);
      }
    case Restart =>
  }

  lemma {:induction false} RunShort(s: State, steps: seq<Step>, dev: Device, capacity: nat, trust: Trust)
    requires Short(s.node, dev, capacity) && HonestRun(s, steps, trust) && trust.sizes
    requires AllFindCapacity(steps, dev, capacity)
    ensures Short(Exec(s, steps).node, dev, capacity)
    decreases |steps|
  {
    if steps != [] {
      StepShort(s, steps[0], dev, capacity, trust);
      assert AllFindCapacity(steps[1..], dev, capacity);
      RunShort(Next(s, steps[0]).0, steps[1..], dev, capacity, trust);
    }
  }

  /** A volume that fell short is never published: after every run in which the lookups that concern it
      find its capacity, with arbitrary failures otherwise, no mounting publish of it succeeds. */
  lemma ShortIsNeverPublished(s: State, steps: seq<Step>, q: PublishRequest, c: Commands, capacity: nat)
    requires Short(s.node, DeviceOf(q), capacity)
    requires HonestRun(s, steps, SIZES) && AllFindCapacity(steps, DeviceOf(q), capacity)
    requires HonestPublish(Exec(s, steps), q, c, SIZES) && LooksUp(c, capacity) && !DirectFlag(q)
    ensures Publish(Exec(s, steps), q, c).1 != Success
  {
    RunShort(s, steps, DeviceOf(q), capacity, SIZES);
    PublishShort(Exec(s, steps), q, c, DeviceOf(q), capacity, SIZES);
  }

  /** The exception: a publish during which only the lookup of the capacity fails counts the capacity as
      zero and succeeds, whatever the size of the volume, which it leaves alone. */
  lemma FailedLookupPublishes(s: State, q: PublishRequest, c: Commands)
    requires Accepted(q) && !DirectFlag(q) && Plain(s.node.links, q.target) && Valid(s.node) && FsTypeOf(q) != ""
    requires DeviceOf(q) in s.node.lvs && c.resizePv == None
    requires DeviceOf(q) in s.node.fs ==> s.node.fs[DeviceOf(q)].fstype == FsTypeOf(q)
    requires Smooth(s.node, DeviceOf(q), q.target, c)
    ensures Publish(s, q, c).1 == Success && Publish(s, q, c).0.node.lvs == s.node.lvs
    ensures SeenMounted(Publish(s, q, c).0.node, q.target)
  {
    PublishOfExisting(s, q, c);
    SmoothFindings(s.node, q, c);
    var n1 := FormatIfBlank(s.node, q, c).value;
    assert n1.fs[DeviceOf(q)].fstype == FsTypeOf(q) && n1.lvs == s.node.lvs;
    var n2 := NodeAtResize(s.node, q, c).value;
    assert n2.lvs == s.node.lvs && ResizeVolume(n2, DeviceOf(q), q.target, c) == Resized(n2, true);
    MountingIsSeen(s.node, q, c);
  }

  // ---------- repeating a successful expand ----------

  /** Idempotence of expand, exactly: after a successful expand, repeating it with a true size shown
      leaves the whole state unchanged, whatever lvextend and ResizeFS would do, and the repeat succeeds
      if and only if the extent-rounded size of the volume reaches the capacity. */
  lemma RepeatedExpand(s: State, q: ExpandRequest, c1: Commands, c2: Commands, pv: Pv)
    requires Valid(s.node) && !s.isDirect && Expand(s, q, c1).1 == Success
    requires c1.pv.Some? && c2.pv == c1.pv && c1.resizePv == Some(pv) && c2.resizePv == Some(pv)
    requires HonestSize(s.node, Device(VgOfPv(c1.pv.value), q.volumeId), c1)
    requires var n, dev := Expand(s, q, c1).0.node, Device(VgOfPv(c1.pv.value), q.volumeId);
      dev in n.lvs ==> c2.lvdisplay.Some? && ShownSize(c2.lvdisplay.value) == Some(n.lvs[dev].size)
    ensures var s1, dev := Expand(s, q, c1).0, Device(VgOfPv(c1.pv.value), q.volumeId);
      && dev in s1.node.lvs && Expand(s1, q, c2).0 == s1
      && (Expand(s1, q, c2).1 == Success <==> s1.node.lvs[dev].size >= pv.capacity)
  {
    var dev := Device(VgOfPv(c1.pv.value), q.volumeId);
    ResizeSettles(s.node, dev, q.target, c1);
    ResizeKeeps(s.node, dev, q.target, c1);
    SettledResize(Expand(s, q, c1).0.node, dev, q.target, c2, pv);
  }

  lemma ExtendedSize(n: Node, dev: Device, target: string, c: Commands, pv: Pv)
    requires c.resizePv == Some(pv) && HonestSize(n, dev, c) && dev in n.lvs && n.lvs[dev].size < pv.capacity
    requires ResizeVolume(n, dev, target, c).ok
    ensures var lvs := ResizeVolume(n, dev, target, c).node.lvs;
      dev in lvs && lvs[dev].size == RoundUp(Bytes(Choose(pv.capacity)), n.lvs[dev].chunk)
  {
  }

  /** On chunks that divide a Gi, the repeat of an expand that grew the volume succeeds exactly for whole
      Gi. */
  lemma RepeatedExpandIffWholeGi(s: State, q: ExpandRequest, c1: Commands, c2: Commands, pv: Pv)
    requires Valid(s.node) && !s.isDirect && Expand(s, q, c1).1 == Success
    requires c1.pv.Some? && c2.pv == c1.pv && c1.resizePv == Some(pv) && c2.resizePv == Some(pv)
    requires HonestSize(s.node, Device(VgOfPv(c1.pv.value), q.volumeId), c1)
    requires var n, dev := Expand(s, q, c1).0.node, Device(VgOfPv(c1.pv.value), q.volumeId);
      dev in n.lvs ==> c2.lvdisplay.Some? && ShownSize(c2.lvdisplay.value) == Some(n.lvs[dev].size)
    requires var dev := Device(VgOfPv(c1.pv.value), q.volumeId);
      && dev in s.node.lvs && s.node.lvs[dev].size < pv.capacity && GI <= pv.capacity
      && s.node.lvs[dev].chunk > 0 && GI % s.node.lvs[dev].chunk == 0
    ensures Expand(Expand(s, q, c1).0, q, c2).1 == Success <==> pv.capacity % GI == 0
  {
    var dev := Device(VgOfPv(c1.pv.value), q.volumeId);
    RepeatedExpand(s, q, c1, c2, pv);
    ExtendedSize(s.node, dev, q.target, c1, pv);
    ReachesIffWhole(pv.capacity, s.node.lvs[dev].chunk);
  }

  // ---------- what a resize that succeeds leaves behind ----------

  /** A successful resize leaves the filesystem as large as its volume if and only if it already was, or
      the volume was still below the capacity. */
  lemma ResizeFillsIff(r: ResizeCall)
    requires r.dev in r.n.fs && r.dev in r.n.lvs && HonestSize(r.n, r.dev, r.c) && MountIsOwn(r)
    requires ResizeVolume(r.n, r.dev, r.target, r.c).ok
    ensures var n' := ResizeVolume(r.n, r.dev, r.target, r.c).node;
      r.dev in n'.fs && r.dev in n'.lvs &&
      (n'.fs[r.dev].size == n'.lvs[r.dev].size <==>
         r.n.fs[r.dev].size == r.n.lvs[r.dev].size || r.n.lvs[r.dev].size < CapacityOf(r.c.resizePv))
  {
    if r.n.lvs[r.dev].size < CapacityOf(r.c.resizePv) {
      var n1 := NodeAtResizeFs(r).value;
      assert ResizeVolume(r.n, r.dev, r.target, r.c) == Resized(Grow(n1, r.dev), true);
    }
  }

  /** Expand, exactly: a successful expand leaves the filesystem as large as its volume if and only
      if it already was, or the volume was still below the capacity when the call came. */
  lemma ExpandFillsIff(s: State, q: ExpandRequest, c: Commands)
    requires !s.isDirect && c.pv.Some? && ResizesOwn(s, ExpandStep(q, c)) && Expand(s, q, c).1 == Success
    requires var dev := Device(VgOfPv(c.pv.value), q.volumeId);
      dev in s.node.fs && dev in s.node.lvs && HonestSize(s.node, dev, c)
    ensures var dev := Device(VgOfPv(c.pv.value), q.volumeId); var n' := Expand(s, q, c).0.node;
      dev in n'.fs && dev in n'.lvs &&
      (n'.fs[dev].size == n'.lvs[dev].size <==>
         s.node.fs[dev].size == s.node.lvs[dev].size || s.node.lvs[dev].size < CapacityOf(c.resizePv))
  {
    ResizeFillsIff(ResizeCallOf(s, ExpandStep(q, c)).value);
  }

  /** What formatting and mounting leave of the device before the resize. */
  lemma FsAtResize(n: Node, q: PublishRequest, c: Commands)
    requires Valid(n) && HonestProbe(n, DeviceOf(q), c) && NodeAtResize(n, q, c).Some?
    ensures var dev, n2 := DeviceOf(q), NodeAtResize(n, q, c).value;
      && n2.lvs == n.lvs && dev in n2.fs && dev in n2.lvs
      && (if dev in n.fs then n2.fs == n.fs else n2.fs[dev].size == n2.lvs[dev].size)
  {
    FormatKeeps(n, q, c);
    LvsAtResize(n, q, c);
    assert NodeAtResize(n, q, c).value.fs == FormatIfBlank(n, q, c).value.fs;
  }

  lemma AttachFillsIff(n: Node, q: PublishRequest, created: bool, c: Commands)
    requires Valid(n) && HonestProbe(n, DeviceOf(q), c) && HonestSize(n, DeviceOf(q), c)
    requires created ==> DeviceOf(q) !in n.fs
    requires !created && NodeAtResize(n, q, c).Some? ==>
      MountIsOwn(ResizeCall(NodeAtResize(n, q, c).value, DeviceOf(q), q.target, c))
    requires Attach(n, q, created, c).1 == Success
    ensures var dev := DeviceOf(q); var n' := Attach(n, q, created, c).0;
      dev in n'.fs && dev in n'.lvs && dev in n.lvs &&
      (n'.fs[dev].size == n'.lvs[dev].size <==>
         dev !in n.fs || n.fs[dev].size == n.lvs[dev].size || n.lvs[dev].size < CapacityOf(c.resizePv))
  {
    AttachAfterMounting(n, q, created, c);
    FsAtResize(n, q, c);
    if !created { ResizeFillsIff(ResizeCall(NodeAtResize(n, q, c).value, DeviceOf(q), q.target, c)); }
  }

  /** Publish, exactly: a successful mounting publish leaves the filesystem as large as its volume if and
      only if there was none, it already was, or the volume was still below the capacity. */
  lemma PublishFillsIff(s: State, q: PublishRequest, c: Commands)
    requires Valid(s.node) && HonestPublish(s, q, c, PROBES_AND_SIZES) && ResizesOwn(s, PublishStep(q, c))
    requires !DirectFlag(q) && Publish(s, q, c).1 == Success
    ensures var dev := DeviceOf(q); var n' := Publish(s, q, c).0.node;
      dev in n'.fs && dev in n'.lvs &&
      (n'.fs[dev].size == n'.lvs[dev].size <==>
         dev !in s.node.fs || s.node.fs[dev].size == s.node.lvs[dev].size
         || s.node.lvs[dev].size < CapacityOf(c.resizePv))
  {
    ProvisionKeeps(s.node, q, c);
    AttachFillsIff(Provision(s.node, q, c).value, q, NeedsCreate(s.node, DeviceOf(q), c), c);
  }

  /** The node after an lvextend for a capacity. */
  function Extended(n: Node, dev: Device, capacity: nat): Node
    requires dev in n.lvs
  {
    n.(lvs := n.lvs[dev := n.lvs[dev].(size := RoundUp(Bytes(Choose(capacity)), n.lvs[dev].chunk))])
  }

  /** An lvextend that covers the capacity, with ResizeFS failing, and a second resize. */
  lemma StaleResize(n: Node, dev: Device, target: string, c1: Commands, c2: Commands, pv: Pv)
    requires c1.resizePv == Some(pv) && c2.resizePv == Some(pv) && c1.lvextend && !c1.resizefs
    requires dev in n.lvs && n.lvs[dev].size < pv.capacity <= RoundUp(Bytes(Choose(pv.capacity)), n.lvs[dev].chunk)
    requires c1.lvdisplay.Some? && ShownSize(c1.lvdisplay.value) == Some(n.lvs[dev].size)
    requires c2.lvdisplay.Some?
    requires ShownSize(c2.lvdisplay.value) == Some(Extended(n, dev, pv.capacity).lvs[dev].size)
    ensures ResizeVolume(n, dev, target, c1) == Resized(Extended(n, dev, pv.capacity), false)
    ensures ResizeVolume(Extended(n, dev, pv.capacity), dev, target, c2) == Resized(Extended(n, dev, pv.capacity), true)
  {
  }

  /** A ResizeFS failure after an lvextend that covers the capacity is not made up for by a retry: the
      call fails, the retry reports success and changes nothing, and the filesystem is still smaller
      than its volume. */
  lemma StaleAfterRetry(s: State, q: ExpandRequest, c1: Commands, c2: Commands, pv: Pv)
    requires q.volumeId != "" && q.target != "" && q.hasRange && !s.isDirect && VgOfPv(pv) != ""
    requires c1.pv == Some(pv) && c1.resizePv == Some(pv) && c2.pv == Some(pv) && c2.resizePv == Some(pv)
    requires c1.lvextend && !c1.resizefs && c1.lvdisplay.Some? && c2.lvdisplay.Some?
    requires var n, dev := s.node, Device(VgOfPv(pv), q.volumeId);
      && dev in n.lvs && dev in n.fs && n.fs[dev].size <= n.lvs[dev].size < pv.capacity
      && pv.capacity <= RoundUp(Bytes(Choose(pv.capacity)), n.lvs[dev].chunk)
      && ShownSize(c1.lvdisplay.value) == Some(n.lvs[dev].size)
      && ShownSize(c2.lvdisplay.value) == Some(Extended(n, dev, pv.capacity).lvs[dev].size)
    ensures var dev := Device(VgOfPv(pv), q.volumeId); var s1 := State(false, Extended(s.node, dev, pv.capacity));
      && Expand(s, q, c1) == (s1, Failure(Internal))
      && Expand(s1, q, c2) == (s1, Success)
      && s1.node.fs[dev].size < s1.node.lvs[dev].size
  {
    StaleResize(s.node, Device(VgOfPv(pv), q.volumeId), q.target, c1, c2, pv);
  }

  // ---------- a filesystem that stayed behind stays behind ----------

  /** A volume that reaches the capacity, with a smaller filesystem on it. */
  predicate Stale(n: Node, dev: Device, capacity: nat) {
    dev in n.fs && dev in n.lvs && n.fs[dev].size < n.lvs[dev].size && capacity <= n.lvs[dev].size
  }

  /** Resizing the stale volume changes nothing, and resizing another one leaves it alone. */
  lemma ResizeStale(r: ResizeCall, dev: Device, capacity: nat)
    requires Stale(r.n, dev, capacity) && HonestSize(r.n, r.dev, r.c) && MountIsOwn(r)
    requires r.dev == dev ==> LooksUp(r.c, capacity)
    ensures Stale(ResizeVolume(r.n, r.dev, r.target, r.c).node, dev, capacity)
    ensures r.dev == dev ==> ResizeVolume(r.n, r.dev, r.target, r.c).node == r.n
  {
    var n1 := NodeAtResizeFs(r);
    if n1.Some? && ResizeFs(n1.value, r.dev, r.target, r.c.resizefs).Some? {
      assert ResizeVolume(r.n, r.dev, r.target, r.c).node == Grow(n1.value, r.dev);
    }
  }

  /** Formatting and mounting keep every filesystem that is there. */
  lemma FsBeforeResize(n: Node, q: PublishRequest, c: Commands, dev: Device)
    requires Valid(n) && HonestProbe(n, DeviceOf(q), c) && dev in n.fs
    ensures FormatIfBlank(n, q, c).Some? ==>
      dev in FormatIfBlank(n, q, c).value.fs && FormatIfBlank(n, q, c).value.fs[dev] == n.fs[dev]
    ensures NodeAtResize(n, q, c).Some? ==>
      dev in NodeAtResize(n, q, c).value.fs && NodeAtResize(n, q, c).value.fs[dev] == n.fs[dev]
  {
  }

  lemma AttachStale(n: Node, q: PublishRequest, created: bool, c: Commands, dev: Device, capacity: nat)
    requires Valid(n) && HonestProbe(n, DeviceOf(q), c) && HonestSize(n, DeviceOf(q), c)
    requires Stale(n, dev, capacity) && (DeviceOf(q) == dev ==> LooksUp(c, capacity))
    requires !created && NodeAtResize(n, q, c).Some? ==>
      MountIsOwn(ResizeCall(NodeAtResize(n, q, c).value, DeviceOf(q), q.target, c))
    ensures Stale(Attach(n, q, created, c).0, dev, capacity)
  {
    AttachStages(n, q, created, c);
    LvsAtResize(n, q, c);
    FsBeforeResize(n, q, c, dev);
    if !created && NodeAtResize(n, q, c).Some? {
      ResizeStale(ResizeCall(NodeAtResize(n, q, c).value, DeviceOf(q), q.target, c), dev, capacity);
    }
  }

  lemma PublishStale(s: State, q: PublishRequest, c: Commands, dev: Device, capacity: nat)
    requires Valid(s.node) && HonestPublish(s, q, c, PROBES_AND_SIZES) && ResizesOwn(s, PublishStep(q, c))
    requires Stale(s.node, dev, capacity) && (DeviceOf(q) == dev ==> LooksUp(c, capacity))
    ensures Stale(Publish(s, q, c).0.node, dev, capacity)
  {
    if Accepted(q) && Provision(s.node, q, c).Some? {
      var n := Provision(s.node, q, c).value;
      ProvisionKeeps(s.node, q, c);
      assert Stale(n, dev, capacity);
      if !DirectFlag(q) { AttachStale(n, q, NeedsCreate(s.node, DeviceOf(q), c), c, dev, capacity); }
    }
  }

  lemma StepStale(s: State, step: Step, dev: Device, capacity: nat)
    requires Valid(s.node) && HonestStep(s, step, PROBES_AND_SIZES) && ResizesOwn(s, step)
    requires Stale(s.node, dev, capacity) && FindsCapacity(step, dev, capacity)
    ensures Stale(Next(s, step).0.node, dev, capacity)
  {
    match step
    case PublishStep(q, c) => PublishStale(s, q, c, dev, capacity);
    case UnpublishStep(q, c) => UnpublishFrame(s, q, c);
    case ExpandStep(q, c) =>
      if ResizeCallOf(s, step).Some? { ResizeStale(ResizeCallOf(s, step).value, dev, capacity); }
    case Restart =>
  }

  /** A ResizeFS failure is not made up for at the same capacity: in every run in which the lookups that
      concern the volume find that capacity and no resize meets another volume's mount, with arbitrary
      failures otherwise, the filesystem stays smaller than its volume. A larger capacity is the way
      out, as ExpandFillsIff and PublishFillsIff say. */
  lemma {:induction false} RunStale(s: State, steps: seq<Step>, dev: Device, capacity: nat)
    requires Valid(s.node) && HonestRun(s, steps, PROBES_AND_SIZES) && AllResizeOwn(s, steps)
    requires Stale(s.node, dev, capacity) && AllFindCapacity(steps, dev, capacity)
    ensures Stale(Exec(s, steps).node, dev, capacity)
    decreases |steps|
  {
    if steps != [] {
      StepStale(s, steps[0], dev, capacity);
      StepKeeps(s, steps[0], PROBES_AND_SIZES);
      assert AllFindCapacity(steps[1..], dev, capacity);
      RunStale(Next(s, steps[0]).0, steps[1..], dev, capacity);
    }
  }

  /** And every further expand at that capacity changes nothing. */
  lemma StaleIsNeverGrown(s: State, steps: seq<Step>, q: ExpandRequest, c: Commands, capacity: nat)
    requires Valid(s.node) && HonestRun(s, steps, PROBES_AND_SIZES) && AllResizeOwn(s, steps) && c.pv.Some?
    requires var dev := Device(VgOfPv(c.pv.value), q.volumeId);
      && Stale(s.node, dev, capacity) && AllFindCapacity(steps, dev, capacity)
      && HonestSize(Exec(s, steps).node, dev, c) && LooksUp(c, capacity)
    ensures Expand(Exec(s, steps), q, c).0 == Exec(s, steps)
  {
    RunStale(s, steps, Device(VgOfPv(c.pv.value), q.volumeId), capacity);
  }

  // ---------- sizes over whole runs ----------

  /** The capacity that a step acknowledges for a device by succeeding. */
  function Acknowledged(s: State, step: Step): Option<(Device, nat)> {
    if Next(s, step).1 != Success then None
    else
      match step
      case PublishStep(q, c) =>
        if NeedsCreate(s.node, DeviceOf(q), c) then
          if LvmType(q) == "linear" || LvmType(q) == "striping" then Some((DeviceOf(q), CapacityOf(c.pv))) else None
        else if DirectFlag(q) then None
        else Some((DeviceOf(q), CapacityOf(c.resizePv)))
      case ExpandStep(q, c) =>
        if s.isDirect then None else Some((Device(VgOfPv(c.pv.value), q.volumeId), CapacityOf(c.resizePv)))
      case _ => None
  }

  function Record(acks: set<(Device, nat)>, ack: Option<(Device, nat)>): set<(Device, nat)> {
    if ack.None? then acks else acks + {ack.value}
  }

  /** Every capacity acknowledged for a device during a run. */
  function Acks(s: State, steps: seq<Step>, acks: set<(Device, nat)>): set<(Device, nat)>
    decreases |steps|
  {
    if steps == [] then acks
    else Acks(Next(s, steps[0]).0, steps[1..], Record(acks, Acknowledged(s, steps[0])))
  }

  /** A volume as large as what is asked for, which for every capacity from one Mi is more than half. */
  ghost predicate Covers(n: Node, dev: Device, capacity: nat) {
    dev in n.lvs && n.lvs[dev].size >= Bytes(Choose(capacity)) && (capacity >= MI ==> 2 * n.lvs[dev].size > capacity)
  }

  ghost predicate Backed(n: Node, acks: set<(Device, nat)>) {
    forall ack :: ack in acks ==> Covers(n, ack.0, ack.1)
  }

  lemma CoversBySize(n: Node, dev: Device, capacity: nat)
    requires dev in n.lvs && (n.lvs[dev].size >= capacity || n.lvs[dev].size >= Bytes(Choose(capacity)))
    ensures Covers(n, dev, capacity)
  {
    ChooseBounds(capacity);
  }

  lemma ResizeCovers(n: Node, dev: Device, target: string, c: Commands)
    requires HonestSize(n, dev, c) && ResizeVolume(n, dev, target, c).ok
    ensures Covers(ResizeVolume(n, dev, target, c).node, dev, CapacityOf(c.resizePv))
  {
    var n' := ResizeVolume(n, dev, target, c).node;
    if n.lvs[dev].size < CapacityOf(c.resizePv) {
      var n1 := LvExtend(n, dev, RequestedBytes(c.resizePv), c.lvextend).value;
      assert n1.lvs[dev].size >= RequestedBytes(c.resizePv) && n'.lvs == n1.lvs;
    }
    CoversBySize(n', dev, CapacityOf(c.resizePv));
  }

  lemma AttachCovers(n: Node, q: PublishRequest, c: Commands)
    requires HonestSize(n, DeviceOf(q), c) && Attach(n, q, false, c).1 == Success
    ensures Covers(Attach(n, q, false, c).0, DeviceOf(q), CapacityOf(c.resizePv))
  {
    var n1 := FormatIfBlank(n, q, c).value;
    var n2 := MountIfNeeded(n1, q, MountednessForPublish(q.target, c) == Mounted, c).value;
    assert n2.lvs == n.lvs;
    ResizeCovers(n2, DeviceOf(q), q.target, c);
  }

  lemma PublishCovers(s: State, q: PublishRequest, c: Commands, trust: Trust)
    requires HonestPublish(s, q, c, trust) && trust.sizes
    ensures var ack := Acknowledged(s, PublishStep(q, c));
      ack.Some? ==> Covers(Publish(s, q, c).0.node, ack.value.0, ack.value.1)
  {
    var dev := DeviceOf(q);
    if Acknowledged(s, PublishStep(q, c)).Some? {
      var n := Provision(s.node, q, c).value;
      if NeedsCreate(s.node, dev, c) {
        CreatedKeepsLvs(n, q, c);
        assert n.lvs[dev].size >= RequestedBytes(c.pv);
        CoversBySize(Publish(s, q, c).0.node, dev, CapacityOf(c.pv));
      } else {
        AttachCovers(n, q, c);
      }
    }
  }

  lemma StepCovers(s: State, step: Step, trust: Trust)
    requires HonestStep(s, step, trust) && trust.sizes
    ensures var ack := Acknowledged(s, step); ack.Some? ==> Covers(Next(s, step).0.node, ack.value.0, ack.value.1)
  {
    match step
    case PublishStep(q, c) => PublishCovers(s, q, c, trust);
    case ExpandStep(q, c) =>
      if Acknowledged(s, step).Some? {
        ResizeCovers(s.node, Device(VgOfPv(c.pv.value), q.volumeId), q.target, c);
      }
    case _ =>
  }

  lemma BackedKept(n: Node, n': Node, acks: set<(Device, nat)>)
    requires Backed(n, acks) && Keeps(n, n')
    ensures Backed(n', acks)
  {
  }

  /** At every point of every run, each volume covers every capacity that was ever acknowledged for it
      by a successful create or resize. */
  lemma {:induction false} AcknowledgedSizes(s: State, steps: seq<Step>, acks: set<(Device, nat)>)
    requires Valid(s.node) && HonestRun(s, steps, PROBES_AND_SIZES) && Backed(s.node, acks)
    ensures Backed(Exec(s, steps).node, Acks(s, steps, acks))
    decreases |steps|
  {
    if steps != [] {
      var s1 := Next(s, steps[0]).0;
      StepKeeps(s, steps[0], PROBES_AND_SIZES);
      StepCovers(s, steps[0], PROBES_AND_SIZES);
      BackedKept(s.node, s1.node, acks);
      AcknowledgedSizes(s1, steps[1..], Record(acks, Acknowledged(s, steps[0])));
    }
  }
}
