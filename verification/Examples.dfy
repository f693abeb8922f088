/** Families of runs, from any node that meets their conditions, that end where the driver goes wrong. */
module Examples {
  import opened GoStrings
  import opened Mounts
  import opened FsProbe
  import opened Sizes
  import opened Host
  import opened NodeServer
  import opened Runs
  import opened Retry
  import opened MountRuns
  import opened Requests

  /** Commands that all succeed, with the given lookups and texts. */
  function Normal(pv: Option<Pv>, grep: Command, file: string, blkid: Option<string>, size: nat): Commands {
    Commands(pv, pv, true, None, true, true, true, true, grep, Present, true,
             Some(file), blkid, true, true, Some(Itoa(size) + "\n"), true, true, true)
  }

  /** A publish of a new linear volume during which nothing fails. */
  predicate FreshRequest(n: Node, q: PublishRequest, pv: Pv) {
    && Accepted(q) && !DirectFlag(q) && LvmType(q) == "linear" && PvType(q) != "localdisk" && FsTypeOf(q) != ""
    && GrepLiteral(q.target) && pv.capacity >= MI
    && VgName(q) in n.extents && n.extents[VgName(q)] > 0
    && DeviceOf(q) !in n.lvs && DeviceOf(q) !in n.fs
  }

  function FreshLv(n: Node, q: PublishRequest, pv: Pv): Lv
    requires VgName(q) in n.extents
  {
    Lv(RoundUp(Bytes(Choose(pv.capacity)), n.extents[VgName(q)]), n.extents[VgName(q)])
  }

  function FreshCommands(n: Node, q: PublishRequest, pv: Pv): Commands
    requires VgName(q) in n.extents
  {
    Normal(Some(pv), Grep(q.target, TableText(n)), "data", None, FreshLv(n, q, pv).size)
  }

  function WithLv(n: Node, q: PublishRequest, pv: Pv): Node
    requires VgName(q) in n.extents
  {
    n.(lvs := n.lvs[DeviceOf(q) := FreshLv(n, q, pv)])
  }

  function FreshNode(n: Node, q: PublishRequest, pv: Pv, mounts: seq<Mount>): Node
    requires VgName(q) in n.extents
  {
    WithLv(n, q, pv).(
      fs := n.fs[DeviceOf(q) := Fs(FsTypeOf(q), FreshLv(n, q, pv).size, n.mkfsRuns)],
      mkfsRuns := n.mkfsRuns + 1,
      mounts := mounts)
  }

  lemma FreshProvision(n: Node, q: PublishRequest, pv: Pv)
    requires FreshRequest(n, q, pv)
    ensures Provision(n, q, FreshCommands(n, q, pv)) == Some(WithLv(n, q, pv))
  {
    ChooseBounds(pv.capacity);
  }

  lemma FreshFormat(n: Node, q: PublishRequest, pv: Pv)
    requires FreshRequest(n, q, pv)
    ensures var c := FreshCommands(n, q, pv);
      && FormatIfBlank(WithLv(n, q, pv), q, c) == Some(FreshNode(n, q, pv, n.mounts))
      && MountednessForPublish(q.target, c) == (if SeenMounted(n, q.target) then Mounted else NotMounted)
  {
    TrimmedIsTrimSpace("data");
    MountCheckExact(n, q.target);
  }

  lemma FreshMount(n: Node, q: PublishRequest, pv: Pv)
    requires FreshRequest(n, q, pv)
    ensures MountIfNeeded(FreshNode(n, q, pv, n.mounts), q, false, FreshCommands(n, q, pv)) ==
      Some(FreshNode(n, q, pv, n.mounts + [NewMount(n.links, q)]))
  {
  }

  /** What a publish of a new volume leaves when nothing fails. */
  lemma FreshPublish(s: State, q: PublishRequest, pv: Pv)
    requires FreshRequest(s.node, q, pv)
    ensures var n := s.node; var mounts := if SeenMounted(n, q.target) then n.mounts else n.mounts + [NewMount(n.links, q)];
      Publish(s, q, FreshCommands(n, q, pv)) == (State(false, FreshNode(n, q, pv, mounts)), Success)
  {
    FreshProvision(s.node, q, pv);
    FreshFormat(s.node, q, pv);
    FreshMount(s.node, q, pv);
  }

  lemma ShownItoa(n: nat)
    ensures ShownSize(Itoa(n) + "\n") == if IsInt64(n) then Some(n) else None
  {
    ItoaHasNoDot(n);
    ShownWithTail(Itoa(n), "\n");
    if IsInt64(n) { AtoiItoa(n); } else { AtoiOutOfRange(n); }
  }

  /** Such a publish is an honest step of a run. */
  lemma FreshIsHonest(s: State, q: PublishRequest, pv: Pv)
    requires FreshRequest(s.node, q, pv)
    ensures HonestPublish(s, q, FreshCommands(s.node, q, pv), EVERYTHING)
  {
    FreshProvision(s.node, q, pv);
    TrimmedIsTrimSpace("data");
    ShownItoa(FreshLv(s.node, q, pv).size);
  }

  // ---------- one target a prefix of another ----------

  /** The line of a mount is seen for every prefix of its target. */
  lemma PrefixIsSeen(n: Node, m: Mount, target: string)
    requires n.mounts == [m] && GrepPlain(m.path) && HasPrefix(m.path, target)
    ensures SeenMounted(n, target)
  {
    LineHoldsPath(m);
    PlainEscape(m.path);
    ContainsTransitive(TableLine(m), m.path, target);
    assert Contains(TableLine(n.mounts[0]), target);
  }

  /** With one mount in the table, a new volume whose target is a proper prefix of that mount's
      target is published with success and not mounted. */
  lemma PrefixTargetIsSkipped(s: State, m: Mount, q: PublishRequest, pv: Pv)
    requires s.node.mounts == [m] && GrepPlain(m.path) && HasPrefix(m.path, q.target) && m.path != q.target
    requires FreshRequest(s.node, q, pv) && Plain(s.node.links, q.target)
    ensures var r := Publish(s, q, FreshCommands(s.node, q, pv));
      r.1 == Success && r.0.node.mounts == [m] && !MountedAt(r.0.node, q.target)
  {
    FreshPublish(s, q, pv);
    PrefixIsSeen(s.node, m, q.target);
  }

  lemma PrefixTargetCannotBeUnpublished(s: State, m: Mount, uq: UnpublishRequest, uc: Commands)
    requires s.node.mounts == [m] && GrepPlain(m.path) && HasPrefix(m.path, uq.target) && m.path != uq.target
    requires uq.volumeId != "" && Plain(s.node.links, uq.target)
    requires uc.grep == Grep(uq.target, TableText(s.node)) && uc.umount
    ensures Unpublish(s, uq, uc).1 != Success
  {
    PrefixIsSeen(s.node, m, uq.target);
    UnpublishSucceedsIff(s, uq, uc);
  }

  /** For every two new volumes whose plain targets are one a proper prefix of the other: publishing
      the longer target and then the shorter one from an empty mount table, with nothing failing,
      reports success twice and leaves the shorter target unmounted. */
  lemma PrefixTargetsCollide(s: State, q1: PublishRequest, q2: PublishRequest, pv: Pv)
    requires s.node.mounts == [] && Plain(s.node.links, q1.target) && Plain(s.node.links, q2.target)
    requires HasPrefix(q1.target, q2.target) && q1.target != q2.target
    requires FreshRequest(s.node, q1, pv) && FreshRequest(s.node, q2, pv) && DeviceOf(q1) != DeviceOf(q2)
    ensures var r1 := Publish(s, q1, FreshCommands(s.node, q1, pv));
      && r1.1 == Success && VgName(q2) in r1.0.node.extents
      && var r2 := Publish(r1.0, q2, FreshCommands(r1.0.node, q2, pv));
      r2.1 == Success && !MountedAt(r2.0.node, q2.target)
  {
    FreshPublish(s, q1, pv);
    var n1 := FreshNode(s.node, q1, pv, [NewMount(s.node.links, q1)]);
    assert Publish(s, q1, FreshCommands(s.node, q1, pv)).0 == State(false, n1) by {
      assert s.node.mounts + [NewMount(s.node.links, q1)] == [NewMount(s.node.links, q1)];
      assert !SeenMounted(s.node, q1.target);
    }
    PrefixTargetIsSkipped(State(false, n1), NewMount(s.node.links, q1), q2, pv);
  }

  // ---------- a failed ResizeFS is forgotten ----------

  function ExpandOf(q: PublishRequest): ExpandRequest {
    ExpandRequest(q.volumeId, q.target, true)
  }

  /** The commands of an expand on a volume of that size. */
  function ExpandCommands(pv: Pv, size: nat, resizefs: bool): Commands {
    Normal(Some(pv), Command(false, ""), "", None, size).(resizefs := resizefs)
  }

  lemma ExpandCommandsShow(pv: Pv, size: nat, resizefs: bool)
    requires IsInt64(size)
    ensures var c := ExpandCommands(pv, size, resizefs);
      c.lvdisplay.Some? && ShownSize(c.lvdisplay.value) == Some(size)
  {
    ShownItoa(size);
  }

  /** For every new volume and every larger capacity that is a whole number of Gi: publish it, grow the
      claim, expand with ResizeFS failing, and expand again with nothing failing. The retry reports
      success and changes nothing, and the filesystem is still smaller than its volume. */
  lemma ForgottenResize(s: State, q: PublishRequest, pv: Pv, larger: Pv)
    requires FreshRequest(s.node, q, pv) && VgOfPv(larger) == VgName(q)
    requires larger.capacity % GI == 0 && FreshLv(s.node, q, pv).size < larger.capacity
    requires IsInt64(RoundUp(larger.capacity, s.node.extents[VgName(q)]))
    ensures var size, dev := FreshLv(s.node, q, pv).size, DeviceOf(q);
      var r1 := Publish(s, q, FreshCommands(s.node, q, pv));
      var r2 := Expand(r1.0, ExpandOf(q), ExpandCommands(larger, size, false));
      var retry := ExpandCommands(larger, RoundUp(larger.capacity, s.node.extents[VgName(q)]), true);
      && r1.1 == Success && r2.1 == Failure(Internal)
      && Expand(r2.0, ExpandOf(q), retry) == (r2.0, Success)
      && Stale(r2.0.node, dev, larger.capacity)
  {
    var mounts := if SeenMounted(s.node, q.target) then s.node.mounts else s.node.mounts + [NewMount(s.node.links, q)];
    FreshPublish(s, q, pv);
    ForgottenFrom(State(false, FreshNode(s.node, q, pv, mounts)), q, larger);
  }

  /** The same from any state in which the filesystem fills its volume. */
  lemma ForgottenFrom(s: State, q: PublishRequest, larger: Pv)
    requires Accepted(q) && !s.isDirect && VgOfPv(larger) == VgName(q) && larger.capacity % GI == 0
    requires DeviceOf(q) in s.node.lvs && DeviceOf(q) in s.node.fs
    requires s.node.fs[DeviceOf(q)].size == s.node.lvs[DeviceOf(q)].size < larger.capacity
    requires IsInt64(RoundUp(larger.capacity, s.node.lvs[DeviceOf(q)].chunk))
    ensures var dev := DeviceOf(q); var lv := s.node.lvs[dev];
      var r2 := Expand(s, ExpandOf(q), ExpandCommands(larger, lv.size, false));
      && r2.1 == Failure(Internal)
      && Expand(r2.0, ExpandOf(q), ExpandCommands(larger, RoundUp(larger.capacity, lv.chunk), true)) == (r2.0, Success)
      && Stale(r2.0.node, dev, larger.capacity)
  {
    var lv := s.node.lvs[DeviceOf(q)];
    assert Bytes(Choose(larger.capacity)) == larger.capacity by { ChooseExact(larger.capacity); }
    ExpandCommandsShow(larger, lv.size, false);
    ExpandCommandsShow(larger, RoundUp(larger.capacity, lv.chunk), true);
    StaleAfterRetry(s, ExpandOf(q), ExpandCommands(larger, lv.size, false),
                    ExpandCommands(larger, RoundUp(larger.capacity, lv.chunk), true), larger);
  }

  lemma FreshValid(n: Node, q: PublishRequest, pv: Pv, mounts: seq<Mount>)
    requires Valid(n) && FreshRequest(n, q, pv)
    ensures Valid(FreshNode(n, q, pv, mounts))
  {
  }

  /** And so it stays: after that failed expand, in every run in which the lookups that concern the
      volume find the same capacity and no resize meets another volume's mount, the filesystem remains
      smaller than its volume. */
  lemma ForgottenResizeIsFinal(s: State, q: PublishRequest, pv: Pv, larger: Pv, steps: seq<Step>)
    requires Valid(s.node) && FreshRequest(s.node, q, pv) && VgOfPv(larger) == VgName(q)
    requires larger.capacity % GI == 0 && FreshLv(s.node, q, pv).size < larger.capacity
    requires IsInt64(RoundUp(larger.capacity, s.node.extents[VgName(q)]))
    requires var s1 := Publish(s, q, FreshCommands(s.node, q, pv)).0;
      var s2 := Expand(s1, ExpandOf(q), ExpandCommands(larger, FreshLv(s.node, q, pv).size, false)).0;
      && HonestRun(s2, steps, PROBES_AND_SIZES) && AllResizeOwn(s2, steps)
      && AllFindCapacity(steps, DeviceOf(q), larger.capacity)
    ensures var s1 := Publish(s, q, FreshCommands(s.node, q, pv)).0;
      var s2 := Expand(s1, ExpandOf(q), ExpandCommands(larger, FreshLv(s.node, q, pv).size, false)).0;
      Stale(Exec(s2, steps).node, DeviceOf(q), larger.capacity)
  {
    var mounts := if SeenMounted(s.node, q.target) then s.node.mounts else s.node.mounts + [NewMount(s.node.links, q)];
    var s1 := Publish(s, q, FreshCommands(s.node, q, pv)).0;
    var c := ExpandCommands(larger, FreshLv(s.node, q, pv).size, false);
    FreshPublish(s, q, pv);
    FreshValid(s.node, q, pv, mounts);
    ForgottenResize(s, q, pv, larger);
    ExpandKeeps(s1, ExpandOf(q), c);
    RunStale(Expand(s1, ExpandOf(q), c).0, steps, DeviceOf(q), larger.capacity);
  }

  // ---------- an expand that cannot be repeated ----------

  /** From any state with the volume: a capacity of at least one Gi that is not a whole number of Gi and
      that makes the volume grow. The expand succeeds, and the same expand again fails. */
  lemma RepeatedExpandFails(s: State, q: PublishRequest, larger: Pv)
    requires Valid(s.node) && Accepted(q) && !s.isDirect && VgOfPv(larger) == VgName(q)
    requires DeviceOf(q) in s.node.lvs && DeviceOf(q) in s.node.fs
    requires HowToGrow(s.node.fs[DeviceOf(q)].fstype) == ByDevice
    requires var lv := s.node.lvs[DeviceOf(q)];
      && GI <= larger.capacity && larger.capacity % GI != 0 && lv.chunk > 0 && GI % lv.chunk == 0
      && lv.size < Bytes(Choose(larger.capacity)) && IsInt64(RoundUp(Bytes(Choose(larger.capacity)), lv.chunk))
    ensures var lv := s.node.lvs[DeviceOf(q)];
      var r1 := Expand(s, ExpandOf(q), ExpandCommands(larger, lv.size, true));
      var c := ExpandCommands(larger, RoundUp(Bytes(Choose(larger.capacity)), lv.chunk), true);
      r1.1 == Success && Expand(r1.0, ExpandOf(q), c) == (r1.0, Failure(Internal))
  {
    var dev, lv := DeviceOf(q), s.node.lvs[DeviceOf(q)];
    var size := RoundUp(Bytes(Choose(larger.capacity)), lv.chunk);
    var c1, c2 := ExpandCommands(larger, lv.size, true), ExpandCommands(larger, size, true);
    ChooseBounds(larger.capacity);
    ExpandCommandsShow(larger, lv.size, true);
    ExpandCommandsShow(larger, size, true);
    assert ResizeVolume(s.node, dev, q.target, c1).ok;
    ExtendedSize(s.node, dev, q.target, c1, larger);
    RepeatedExpand(s, ExpandOf(q), c1, c2, larger);
    RepeatedExpandIffWholeGi(s, ExpandOf(q), c1, c2, larger);
  }

  // ---------- two volumes at one target ----------

  /** The second of two new volumes published at one plain target is not mounted, since the target is. */
  lemma SecondVolumeIsNotMounted(s: State, q1: PublishRequest, q2: PublishRequest, pv: Pv)
    requires s.node.mounts == [] && Plain(s.node.links, q1.target) && q2.target == q1.target
    requires FreshRequest(s.node, q1, pv) && FreshRequest(s.node, q2, pv) && DeviceOf(q1) != DeviceOf(q2)
    ensures var r1 := Publish(s, q1, FreshCommands(s.node, q1, pv));
      && r1.1 == Success && VgName(q2) in r1.0.node.extents
      && Publish(r1.0, q2, FreshCommands(r1.0.node, q2, pv)) ==
         (State(false, FreshNode(FreshNode(s.node, q1, pv, [NewMount(s.node.links, q1)]), q2, pv,
                                 [NewMount(s.node.links, q1)])), Success)
  {
    var m := NewMount(s.node.links, q1);
    var n1 := FreshNode(s.node, q1, pv, [m]);
    FreshPublish(s, q1, pv);
    assert Publish(s, q1, FreshCommands(s.node, q1, pv)).0 == State(false, n1) by {
      assert s.node.mounts + [m] == [m];
      assert !SeenMounted(s.node, q1.target);
    }
    assert n1.mounts[0].path == q2.target;
    MountedIsSeen(n1, q2.target);
    FreshPublish(State(false, n1), q2, pv);
  }

  lemma TwoFreshVolumes(n: Node, q1: PublishRequest, q2: PublishRequest, pv: Pv, mounts: seq<Mount>)
    requires Full(n) && VgName(q1) in n.extents && VgName(q2) in n.extents && DeviceOf(q1) != DeviceOf(q2)
    ensures var n2 := FreshNode(FreshNode(n, q1, pv, mounts), q2, pv, mounts);
      && Full(n2) && n2.mounts == mounts && n2.links == n.links
      && DeviceOf(q1) in n2.fs && n2.fs[DeviceOf(q1)].fstype == FsTypeOf(q1)
      && DeviceOf(q2) in n2.fs && n2.fs[DeviceOf(q2)].fstype == FsTypeOf(q2)
      && n2.lvs[DeviceOf(q2)] == FreshLv(n, q2, pv)
  {
  }

  /** For every two new xfs or btrfs volumes published at one target with nothing failing, expanding the
      second to a larger whole number of Gi reports success, works on the first, and leaves the second's
      filesystem smaller than its volume. */
  lemma SecondVolumeStaysSmall(s: State, q1: PublishRequest, q2: PublishRequest, pv: Pv, larger: Pv)
    requires s.node.mounts == [] && Plain(s.node.links, q1.target) && q2.target == q1.target
    requires FreshRequest(s.node, q1, pv) && FreshRequest(s.node, q2, pv) && DeviceOf(q1) != DeviceOf(q2)
    requires Full(s.node) && HowToGrow(FsTypeOf(q1)) == ByMountPath && FsTypeOf(q2) == FsTypeOf(q1)
    requires VgOfPv(larger) == VgName(q2) && larger.capacity % GI == 0
    requires FreshLv(s.node, q2, pv).size < larger.capacity && IsInt64(FreshLv(s.node, q2, pv).size)
    ensures var s1 := Publish(s, q1, FreshCommands(s.node, q1, pv)).0;
      && VgName(q2) in s1.node.extents
      && var s2 := Publish(s1, q2, FreshCommands(s1.node, q2, pv)).0;
         var r := Expand(s2, ExpandOf(q2), ExpandCommands(larger, FreshLv(s.node, q2, pv).size, true));
      r.1 == Success && Stale(r.0.node, DeviceOf(q2), larger.capacity)
  {
    SecondVolumeIsNotMounted(s, q1, q2, pv);
    var m := NewMount(s.node.links, q1);
    var n2 := FreshNode(FreshNode(s.node, q1, pv, [m]), q2, pv, [m]);
    TwoFreshVolumes(s.node, q1, q2, pv, [m]);
    SecondVolumeFrom(State(false, n2), q2, m, DeviceOf(q1), larger);
  }

  /** A resize to a larger capacity that LVM can cover gets as far as ResizeFS. */
  lemma ReachesResizeFs(r: ResizeCall, pv: Pv)
    requires r.c.resizePv == Some(pv) && r.c.lvextend && r.dev in r.n.lvs && r.n.lvs[r.dev].size < pv.capacity
    requires r.c.lvdisplay.Some? && ShownSize(r.c.lvdisplay.value) == Some(r.n.lvs[r.dev].size)
    requires pv.capacity <= RoundUp(Bytes(Choose(pv.capacity)), r.n.lvs[r.dev].chunk)
    ensures NodeAtResizeFs(r) == Some(Extended(r.n, r.dev, pv.capacity))
  {
  }

  lemma SecondVolumeFrom(s: State, q: PublishRequest, m: Mount, first: Device, larger: Pv)
    requires Accepted(q) && !s.isDirect && Full(s.node) && VgOfPv(larger) == VgName(q) && larger.capacity % GI == 0
    requires s.node.mounts == [m] && m.path == Resolve(s.node.links, q.target) && m.source == Volume(first)
    requires DeviceOf(q) in s.node.fs && first in s.node.fs && first != DeviceOf(q)
    requires HowToGrow(s.node.fs[DeviceOf(q)].fstype) == ByMountPath
    requires s.node.fs[first].fstype == s.node.fs[DeviceOf(q)].fstype
    requires s.node.lvs[DeviceOf(q)].size < larger.capacity && IsInt64(s.node.lvs[DeviceOf(q)].size)
    ensures var r := Expand(s, ExpandOf(q), ExpandCommands(larger, s.node.lvs[DeviceOf(q)].size, true));
      r.1 == Success && Stale(r.0.node, DeviceOf(q), larger.capacity)
  {
    var c := ExpandCommands(larger, s.node.lvs[DeviceOf(q)].size, true);
    assert Bytes(Choose(larger.capacity)) == larger.capacity by { ChooseExact(larger.capacity); }
    ExpandCommandsShow(larger, s.node.lvs[DeviceOf(q)].size, true);
    ReachesResizeFs(ResizeCall(s.node, DeviceOf(q), q.target, c), larger);
    assert s.node.mounts[0].path == Resolve(s.node.links, q.target);
    ForeignMountIsGrown(s, ExpandOf(q), c, first);
  }

  // ---------- a sample node ----------

  const EMPTY_NODE := Node(map["vg0" := 4 * MI], map[], map[], 0, [], map[], map[])

  function SampleRequest(target: string): PublishRequest {
    PublishRequest("v", target, map["vgName" := "vg0"], false, [])
  }

  function SamplePv(capacity: nat): Pv {
    Pv(capacity, NoInfo, Some(map["vgName" := "vg0"]))
  }

  lemma SampleIsFresh(target: string, capacity: nat)
    requires GrepLiteral(target) && capacity >= MI
    ensures FreshRequest(EMPTY_NODE, SampleRequest(target), SamplePv(capacity))
    ensures FsTypeOf(SampleRequest(target)) == "ext4"
  {
  }

  // ---------- a mount that fails once ----------

  /** The commands of a publish of a new volume whose mount fails. */
  function MountFails(n: Node, q: PublishRequest, pv: Pv): Commands
    requires VgName(q) in n.extents
  {
    FreshCommands(n, q, pv).(mount := false)
  }

  /** The commands of a later publish during which nothing fails, on a volume of that size. */
  function RetryCommands(n: Node, q: PublishRequest, pv: Pv, size: nat): Commands {
    Normal(Some(pv), Grep(q.target, TableText(n)), "", Some("TYPE=" + FsTypeOf(q)), size)
  }

  lemma MountFailsPublish(s: State, q: PublishRequest, pv: Pv)
    requires FreshRequest(s.node, q, pv) && !SeenMounted(s.node, q.target)
    ensures Publish(s, q, MountFails(s.node, q, pv)) ==
      (State(false, FreshNode(s.node, q, pv, s.node.mounts)), Failure(Internal))
    ensures HonestPublish(s, q, MountFails(s.node, q, pv), EVERYTHING)
  {
    var c := MountFails(s.node, q, pv);
    FreshProvision(s.node, q, pv);
    FreshFormat(s.node, q, pv);
    FreshIsHonest(s, q, pv);
    assert Provision(s.node, q, c) == Provision(s.node, q, FreshCommands(s.node, q, pv));
    assert FormatIfBlank(WithLv(s.node, q, pv), q, c) == Some(FreshNode(s.node, q, pv, s.node.mounts));
  }

  lemma RetryIsSmooth(n: Node, q: PublishRequest, pv: Pv, mounts: seq<Mount>)
    requires FreshRequest(n, q, pv) && NoSpace(FsTypeOf(q)) && '=' !in FsTypeOf(q) && IsInt64(FreshLv(n, q, pv).size)
    ensures var n1 := FreshNode(n, q, pv, mounts);
      Smooth(n1, DeviceOf(q), q.target, RetryCommands(n1, q, pv, FreshLv(n, q, pv).size))
  {
    SingleTypeLine(FsTypeOf(q));
    TrimmedIsTrimSpace("");
    ShownItoa(FreshLv(n, q, pv).size);
  }

  /** A new volume of at least one Gi, on extents that divide a Gi, for an unseen plain target and an
      ordinary filesystem name. */
  ghost predicate NewLargeVolume(n: Node, q: PublishRequest, pv: Pv) {
    && Valid(n) && FreshRequest(n, q, pv) && Plain(n.links, q.target) && !SeenMounted(n, q.target)
    && NoSpace(FsTypeOf(q)) && '=' !in FsTypeOf(q) && IsInt64(FreshLv(n, q, pv).size)
    && pv.capacity >= GI && GI % n.extents[VgName(q)] == 0
  }

  /** For every such volume: if its first mount fails, a retry during which nothing fails succeeds
      exactly when the capacity is a whole number of Gi. */
  lemma CleanRetrySucceedsIffWholeGi(s: State, q: PublishRequest, pv: Pv)
    requires NewLargeVolume(s.node, q, pv)
    ensures var r1 := Publish(s, q, MountFails(s.node, q, pv));
      var r2 := Publish(r1.0, q, RetryCommands(r1.0.node, q, pv, FreshLv(s.node, q, pv).size));
      r1.1 == Failure(Internal) && (r2.1 == Success <==> pv.capacity % GI == 0)
  {
    MountFailsPublish(s, q, pv);
    RetryIsSmooth(s.node, q, pv, s.node.mounts);
    var n1 := FreshNode(s.node, q, pv, s.node.mounts);
    RetrySucceedsIffWholeGi(s, q, MountFails(s.node, q, pv),
                            RetryCommands(n1, q, pv, FreshLv(s.node, q, pv).size), pv);
  }

  /** And if the capacity is not a whole number of Gi, one failed mount is final: after every run in
      which the lookups that concern the volume find its capacity, whatever else fails or works, no
      mounting publish of it succeeds. A volume of one and a half Gi is never published again. */
  lemma OneFailedMountIsFinal(s: State, q: PublishRequest, pv: Pv, steps: seq<Step>, q': PublishRequest, c': Commands)
    requires NewLargeVolume(s.node, q, pv) && pv.capacity % GI != 0
    requires var s1 := Publish(s, q, MountFails(s.node, q, pv)).0;
      && HonestRun(s1, steps, SIZES) && AllFindCapacity(steps, DeviceOf(q), pv.capacity)
      && HonestPublish(Exec(s1, steps), q', c', SIZES)
    requires DeviceOf(q') == DeviceOf(q) && LooksUp(c', pv.capacity) && !DirectFlag(q')
    ensures Publish(Exec(Publish(s, q, MountFails(s.node, q, pv)).0, steps), q', c').1 != Success
  {
    MountFailsPublish(s, q, pv);
    var s1 := Publish(s, q, MountFails(s.node, q, pv)).0;
    assert s1.node.lvs[DeviceOf(q)] == FreshLv(s.node, q, pv);
    ReachesIffWhole(pv.capacity, s.node.extents[VgName(q)]);
    ShortIsNeverPublished(s1, steps, q', c', pv.capacity);
  }

  /** The exception: a retry during which only the lookup of the capacity fails succeeds, for every
      capacity. */
  lemma FailedLookupRescues(s: State, q: PublishRequest, pv: Pv)
    requires NewLargeVolume(s.node, q, pv)
    ensures var s1 := Publish(s, q, MountFails(s.node, q, pv)).0;
      var c := RetryCommands(s1.node, q, pv, FreshLv(s.node, q, pv).size).(resizePv := None);
      Publish(s1, q, c).1 == Success && SeenMounted(Publish(s1, q, c).0.node, q.target)
  {
    MountFailsPublish(s, q, pv);
    RetryIsSmooth(s.node, q, pv, s.node.mounts);
    FreshValid(s.node, q, pv, s.node.mounts);
    var n1, size := FreshNode(s.node, q, pv, s.node.mounts), FreshLv(s.node, q, pv).size;
    FailedLookupPublishes(State(false, n1), q, RetryCommands(n1, q, pv, size).(resizePv := None));
  }

  /** For every such volume published without any failure: repeating the request changes nothing, and
      succeeds exactly when the capacity is a whole number of Gi. */
  lemma RepeatSucceedsIffWholeGi(s: State, q: PublishRequest, pv: Pv)
    requires NewLargeVolume(s.node, q, pv)
    ensures var r1 := Publish(s, q, FreshCommands(s.node, q, pv));
      var r2 := Publish(r1.0, q, RetryCommands(r1.0.node, q, pv, FreshLv(s.node, q, pv).size));
      r1.1 == Success && r2.0 == r1.0 && (r2.1 == Success <==> pv.capacity % GI == 0)
  {
    FreshPublish(s, q, pv);
    FreshIsHonest(s, q, pv);
    var n1 := FreshNode(s.node, q, pv, s.node.mounts + [NewMount(s.node.links, q)]);
    RetryIsSmooth(s.node, q, pv, s.node.mounts + [NewMount(s.node.links, q)]);
    RepeatedPublish(s, q, FreshCommands(s.node, q, pv), RetryCommands(n1, q, pv, FreshLv(s.node, q, pv).size), pv);
    ReachesIffWhole(pv.capacity, s.node.extents[VgName(q)]);
  }

  /** On the sample node every capacity from one Gi up to half the range of int64 is such a case, one
      and a half Gi for one. */
  lemma SampleIsLarge(capacity: nat)
    requires GI <= capacity <= MAX_INT64 / 2
    ensures NewLargeVolume(EMPTY_NODE, SampleRequest("/t"), SamplePv(capacity))
  {
    SampleIsFresh("/t", capacity);
    ChooseBounds(capacity);
  }

  // ---------- a target that the table does not show ----------

  /** For every new volume that reaches its capacity and whose mount the table shows without the text of
      its target, because the path is resolved: publishing it twice with nothing failing reports success
      twice and mounts it twice, and an unpublish then reports success and removes no mount. */
  lemma HiddenTargetIsMountedTwice(s: State, q: PublishRequest, pv: Pv, uq: UnpublishRequest, uc: Commands)
    requires Valid(s.node) && FreshRequest(s.node, q, pv) && !SeenMounted(s.node, q.target)
    requires !Contains(TableLine(NewMount(s.node.links, q)), q.target)
    requires NoSpace(FsTypeOf(q)) && '=' !in FsTypeOf(q)
    requires IsInt64(FreshLv(s.node, q, pv).size) && FreshLv(s.node, q, pv).size >= pv.capacity
    requires uq.volumeId != "" && uq.target == q.target
    ensures var path := Resolve(s.node.links, q.target);
      var r1 := Publish(s, q, FreshCommands(s.node, q, pv));
      var r2 := Publish(r1.0, q, RetryCommands(r1.0.node, q, pv, FreshLv(s.node, q, pv).size));
      && r1.1 == Success && r2.1 == Success
      && CountAt(r2.0.node.mounts, path) == CountAt(s.node.mounts, path) + 2
      && (uc.grep == Grep(q.target, TableText(r2.0.node)) ==>
          Unpublish(r2.0, uq, uc).1 == Success && Unpublish(r2.0, uq, uc).0.node.mounts == r2.0.node.mounts)
  {
    var n1 := FreshNode(s.node, q, pv, s.node.mounts + [NewMount(s.node.links, q)]);
    var s1 := State(false, n1);
    FreshPublish(s, q, pv);
    UnseenTargetsPileUp(s, q, FreshCommands(s.node, q, pv));
    StepHides(s, PublishStep(q, FreshCommands(s.node, q, pv)), q.target);
    SecondPublishSucceeds(s.node, q, pv);
    var c := RetryCommands(n1, q, pv, FreshLv(s.node, q, pv).size);
    UnseenTargetsPileUp(s1, q, c);
    StepHides(s1, PublishStep(q, c), q.target);
    if uc.grep == Grep(q.target, TableText(Publish(s1, q, c).0.node)) {
      UnseenTargetsStayMounted(Publish(s1, q, c).0, uq, uc);
    }
  }

  lemma SecondPublishSucceeds(n: Node, q: PublishRequest, pv: Pv)
    requires Valid(n) && FreshRequest(n, q, pv) && NoSpace(FsTypeOf(q)) && '=' !in FsTypeOf(q)
    requires IsInt64(FreshLv(n, q, pv).size) && FreshLv(n, q, pv).size >= pv.capacity
    ensures var n1 := FreshNode(n, q, pv, n.mounts + [NewMount(n.links, q)]);
      Publish(State(false, n1), q, RetryCommands(n1, q, pv, FreshLv(n, q, pv).size)).1 == Success
  {
    var mounts := n.mounts + [NewMount(n.links, q)];
    var n1 := FreshNode(n, q, pv, mounts);
    FreshValid(n, q, pv, mounts);
    RetryIsSmooth(n, q, pv, mounts);
    SmoothOnSettled(State(false, n1), q, RetryCommands(n1, q, pv, FreshLv(n, q, pv).size), pv);
  }
}
