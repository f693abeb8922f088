/** The node as the driver's commands see and change it: logical volumes, the filesystems on them,
    the mount table and Kata's direct-volume table. A command that fails changes nothing. */
module Host {
  import opened GoStrings
  import opened Mounts
  import opened Sizes

  datatype Device = Device(vg: string, lv: string)

  /** filepath.Join("/dev/", vgName, volumeID) for names without slashes. */
  function DevicePath(dev: Device): string {
    "/dev/" + dev.vg + "/" + dev.lv
  }

  /** A logical volume; LVM allocates it in whole chunks. */
  datatype Lv = Lv(size: nat, chunk: nat)

  /** A filesystem; `birth` tells one run of mkfs from another. */
  datatype Fs = Fs(fstype: string, size: nat, birth: nat)

  datatype Source = Volume(device: Device) | Foreign(text: string)

  /** A mount; `path` is its mount point with every symlink resolved. */
  datatype Mount = Mount(source: Source, path: string, fstype: string, opts: seq<string>)

  datatype DirectVolume = DirectVolume(device: Device, fstype: string)

  datatype Node = Node(
    extents: map<string, nat>,       // volume groups and their extent sizes
    lvs: map<Device, Lv>,
    fs: map<Device, Fs>,
    mkfsRuns: nat,
    mounts: seq<Mount>,              // oldest first
    direct: map<string, DirectVolume>,
    links: map<string, string>)      // targets that are not their own resolved path

  // ---------- LVM ----------

  function LvCreate(n: Node, dev: Device, bytes: nat, stripes: nat, ok: bool): Option<Node> {
    if ok && bytes > 0 && stripes > 0 && dev.vg in n.extents && n.extents[dev.vg] > 0 && dev !in n.lvs then
      var chunk := n.extents[dev.vg] * stripes;
      Some(n.(lvs := n.lvs[dev := Lv(RoundUp(bytes, chunk), chunk)]))
    else None
  }

  /** lvextend -L refuses a target that is not above the current size once rounded. */
  function LvExtend(n: Node, dev: Device, bytes: nat, ok: bool): Option<Node> {
    if ok && dev in n.lvs && RoundUp(bytes, n.lvs[dev].chunk) > n.lvs[dev].size then
      var lv := n.lvs[dev];
      Some(n.(lvs := n.lvs[dev := lv.(size := RoundUp(bytes, lv.chunk))]))
    else None
  }

  // ---------- filesystems ----------

  /** mkfs overwrites whatever the device carries. */
  function MkFs(n: Node, dev: Device, fstype: string, ok: bool): Option<Node> {
    if ok && fstype != "" && dev in n.lvs then
      Some(n.(fs := n.fs[dev := Fs(fstype, n.lvs[dev].size, n.mkfsRuns)], mkfsRuns := n.mkfsRuns + 1))
    else None
  }

  function Grow(n: Node, dev: Device): Node {
    if dev in n.fs && dev in n.lvs then
      n.(fs := n.fs[dev := n.fs[dev].(size := n.lvs[dev].size)])
    else n
  }

  datatype GrowKind = ByDevice | ByMountPath | NotSupported

  function HowToGrow(fstype: string): GrowKind {
    if fstype == "ext3" || fstype == "ext4" then ByDevice
    else if fstype == "xfs" || fstype == "btrfs" then ByMountPath
    else NotSupported
  }

  /** The device whose filesystem ResizeFS grows: ext by device, xfs and btrfs by mount path. */
  function GrownDevice(n: Node, dev: Device, target: string): Option<Device> {
    if dev !in n.fs then None
    else
      match HowToGrow(n.fs[dev].fstype)
      case ByDevice => Some(dev)
      case NotSupported => None
      case ByMountPath =>
        var top := TopMount(n.mounts, Resolve(n.links, target));
        if top.Some? && top.value.source.Volume? && top.value.source.device in n.fs
           && n.fs[top.value.source.device].fstype == n.fs[dev].fstype
        then Some(top.value.source.device) else None
  }

  function ResizeFs(n: Node, dev: Device, target: string, ok: bool): Option<Node> {
    var grown := GrownDevice(n, dev, target);
    if ok && grown.Some? then Some(Grow(n, grown.value)) else None
  }

  /** ResizeFS by type: ext3 and ext4 through the device, xfs and btrfs through whatever volume of that type
      is mounted on top at the target, and no other type. */
  lemma ResizeFsByType(n: Node, dev: Device, target: string)
    requires dev in n.fs
    ensures n.fs[dev].fstype in {"ext3", "ext4"} ==> ResizeFs(n, dev, target, true) == Some(Grow(n, dev))
    ensures n.fs[dev].fstype in {"xfs", "btrfs"} ==>
      forall d :: (d in n.fs && n.fs[d].fstype == n.fs[dev].fstype && MountedAt(n, target)
                   && TopMount(n.mounts, Resolve(n.links, target)).value.source == Volume(d)) ==>
        ResizeFs(n, dev, target, true) == Some(Grow(n, d))
    ensures n.fs[dev].fstype in {"xfs", "btrfs"} && !MountedAt(n, target) ==> ResizeFs(n, dev, target, true) == None
    ensures n.fs[dev].fstype !in {"ext3", "ext4", "xfs", "btrfs"} ==> ResizeFs(n, dev, target, true) == None
  {
  }

  // ---------- the mount table ----------

  /** The path a target stands for once symlinks are resolved and slashes cleaned. */
  function Resolve(links: map<string, string>, target: string): string {
    if target in links then links[target] else target
  }

  /** Targets that grep searches for as they are and that the table shows as they are. */
  predicate Plain(links: map<string, string>, target: string) {
    GrepPlain(target) && Resolve(links, target) == target
  }

  function TopMount(mounts: seq<Mount>, path: string): (m: Option<Mount>)
    ensures m.Some? <==> exists i :: 0 <= i < |mounts| && mounts[i].path == path
    ensures m.Some? ==> m.value in mounts && m.value.path == path
  {
    if mounts == [] then None
    else if mounts[|mounts| - 1].path == path then Some(mounts[|mounts| - 1])
    else TopMount(mounts[..|mounts| - 1], path)
  }

  function RemoveTop(mounts: seq<Mount>, path: string): seq<Mount> {
    if mounts == [] then []
    else
      var front, top := mounts[..|mounts| - 1], mounts[|mounts| - 1];
      if top.path == path then front else RemoveTop(front, path) + [top]
  }

  predicate MountedAt(n: Node, target: string) {
    TopMount(n.mounts, Resolve(n.links, target)).Some?
  }

  /** mount(8): the device must carry a filesystem of the given type. */
  function DoMount(n: Node, dev: Device, target: string, fstype: string, opts: seq<string>, ok: bool): Option<Node> {
    if ok && fstype != "" && dev in n.fs && n.fs[dev].fstype == fstype then
      Some(n.(mounts := n.mounts + [Mount(Volume(dev), Resolve(n.links, target), fstype, opts)]))
    else None
  }

  function DoUmount(n: Node, target: string, ok: bool): Option<Node> {
    if ok && MountedAt(n, target) then Some(n.(mounts := RemoveTop(n.mounts, Resolve(n.links, target)))) else None
  }

  function EscapeAll(texts: seq<string>): (r: seq<string>)
    ensures |r| == |texts|
    ensures forall i :: 0 <= i < |r| ==> r[i] == Escape(texts[i])
  {
    seq(|texts|, i requires 0 <= i < |texts| => Escape(texts[i]))
  }

  /** A mount as /proc/mounts shows it. */
  function Shown(m: Mount): MountPoint {
    var source := match m.source case Volume(d) => DevicePath(d) case Foreign(t) => t;
    MountPoint(Escape(source), Escape(m.path), Escape(m.fstype), EscapeAll(m.opts), 0, 0)
  }

  function TableLine(m: Mount): string {
    PrintLine(Shown(m))
  }

  function ShownAll(mounts: seq<Mount>): (r: seq<MountPoint>)
    ensures |r| == |mounts|
    ensures forall i :: 0 <= i < |r| ==> r[i] == Shown(mounts[i])
  {
    seq(|mounts|, i requires 0 <= i < |mounts| => Shown(mounts[i]))
  }

  /** The text of /proc/mounts. */
  function TableText(n: Node): string {
    PrintTable(ShownAll(n.mounts))
  }

  /** Some line of the mount table holds the target as a substring. */
  ghost predicate SeenMounted(n: Node, target: string) {
    exists i :: 0 <= i < |n.mounts| && Contains(TableLine(n.mounts[i]), target)
  }

  /** The fields of a mount's line. */
  function LineFields(m: Mount): seq<string> {
    var mp := Shown(m);
    [mp.device, mp.path, mp.fstype, Join(mp.opts, ","), "0", "0"]
  }

  /** No field holds a newline, a tab or a blank. */
  lemma FieldsAreEscaped(m: Mount, c: char)
    requires c in {'\n', '\t', ' '}
    ensures FreeOf(LineFields(m), c) && TableLine(m) == Join(LineFields(m), " ")
  {
    var mp := Shown(m);
    var source := match m.source case Volume(d) => DevicePath(d) case Foreign(t) => t;
    EscapeIsFree(source, c);
    EscapeIsFree(m.path, c);
    EscapeIsFree(m.fstype, c);
    forall i | 0 <= i < |mp.opts| ensures c !in mp.opts[i] { EscapeIsFree(m.opts[i], c); }
    JoinIsFree(mp.opts, ",", c);
  }

  /** No line of the table holds a newline or a tab. */
  lemma TableLineIsEscaped(m: Mount, c: char)
    requires c in {'\n', '\t'}
    ensures c !in TableLine(m)
  {
    FieldsAreEscaped(m, c);
    JoinIsFree(LineFields(m), " ", c);
  }

  /** A line holds a target exactly when one of its fields does. */
  lemma LineHoldsIff(m: Mount, target: string)
    requires GrepPlain(target)
    ensures Contains(TableLine(m), target) <==> SomePartContains(LineFields(m), target)
  {
    FieldsAreEscaped(m, ' ');
    SplitJoin(LineFields(m), ' ');
    ContainsSomePart(TableLine(m), ' ', target);
  }

  lemma {:induction false} PrintedLine(mps: seq<MountPoint>, i: nat)
    requires i < |mps|
    ensures |PrintLines(mps)| == |mps| && PrintLines(mps)[i] == PrintLine(mps[i])
  {
    if |mps| > 1 { PrintedLine(mps[1..], if i == 0 then 0 else i - 1); }
  }

  /** The driver's mount check against the real table. */
  lemma MountCheckExact(n: Node, target: string)
    requires GrepLiteral(target)
    ensures IsMounted(target, Grep(target, TableText(n))) == Ok(SeenMounted(n, target))
  {
    var mps := ShownAll(n.mounts);
    forall i | 0 <= i < |mps| ensures '\n' !in PrintLine(mps[i]) { TableLineIsEscaped(n.mounts[i], '\n'); }
    LinesOfPrinted(mps);
    IsMountedExact(target, TableText(n));
    SomePartSnocEmpty(PrintLines(mps), target);
    forall i | 0 <= i < |mps| ensures |PrintLines(mps)| == |mps| && PrintLines(mps)[i] == TableLine(n.mounts[i]) {
      PrintedLine(mps, i);
    }
    if SeenMounted(n, target) {
      var i :| 0 <= i < |n.mounts| && Contains(TableLine(n.mounts[i]), target);
      assert Contains(PrintLines(mps)[i], target);
    }
  }

  lemma JoinHoldsSecond(a: string, b: string, rest: seq<string>, sep: string)
    requires rest != []
    ensures Contains(Join([a] + ([b] + rest), sep), b)
  {
    JoinCons(a, [b] + rest, sep);
    JoinCons(b, rest, sep);
    var tail := sep + Join(rest, sep);
    assert Join([a] + ([b] + rest), sep) == (a + sep) + b + tail;
    ContainsIn(a + sep, b, tail);
  }

  lemma LineHoldsPath(m: Mount)
    ensures Contains(TableLine(m), Escape(m.path))
  {
    var mp := Shown(m);
    var rest := [mp.fstype, Join(mp.opts, ","), Itoa(mp.freq), Itoa(mp.pass)];
    JoinHoldsSecond(mp.device, mp.path, rest, " ");
    assert [mp.device] + ([mp.path] + rest) ==
      [mp.device, mp.path, mp.fstype, Join(mp.opts, ","), Itoa(mp.freq), Itoa(mp.pass)];
  }

  /** A mounted plain target is always seen. */
  lemma MountedIsSeen(n: Node, target: string)
    requires Plain(n.links, target) && MountedAt(n, target)
    ensures SeenMounted(n, target)
  {
    var i :| 0 <= i < |n.mounts| && n.mounts[i].path == target;
    LineHoldsPath(n.mounts[i]);
    PlainEscape(target);
    assert Contains(TableLine(n.mounts[i]), target);
  }

  /** A target with a tab is never seen, mounted or not. */
  lemma EscapedIsNeverSeen(n: Node, target: string)
    requires '\t' in target
    ensures !SeenMounted(n, target)
  {
    forall i | 0 <= i < |n.mounts| ensures !Contains(TableLine(n.mounts[i]), target) {
      TableLineIsEscaped(n.mounts[i], '\t');
      if Contains(TableLine(n.mounts[i]), target) { ContainsCharacter(TableLine(n.mounts[i]), target, '\t'); }
    }
  }

  lemma PlainEscape(target: string)
    requires GrepPlain(target)
    ensures Escape(target) == target
  {
    EscapePlain(target);
  }

  lemma {:induction false} EscapeLeavesBackslash(s: string)
    requires '\\' !in Escape(s)
    ensures Escape(s) == s
  {
    if s != "" {
      EscapeLeavesBackslash(s[1..]);
      assert EscapeChar(s[0]) == [s[0]] by { assert EscapeChar(s[0])[0] in Escape(s); }
      assert s == [s[0]] + s[1..];
    }
  }

  /** Some mount is shown as the deleted directory of the path. */
  ghost predicate ShownDeleted(n: Node, path: string) {
    exists i :: 0 <= i < |n.mounts| && Escape(n.mounts[i].path) == path + "\\040(deleted)"
  }

  lemma ShownPathIs(m: Mount, path: string)
    requires GrepPlain(path)
    ensures Shown(m).path == path <==> m.path == path
  {
    PlainEscape(path);
    if Escape(m.path) == path { EscapeLeavesBackslash(m.path); }
  }

  lemma MatchedInTable(n: Node, path: string)
    requires GrepPlain(path)
    ensures MatchedIn(ShownAll(n.mounts), path) <==> TopMount(n.mounts, path).Some? || ShownDeleted(n, path)
  {
    var mps := ShownAll(n.mounts);
    forall i | 0 <= i < |mps|
      ensures IsMountPointMatch(mps[i], path) <==>
        n.mounts[i].path == path || Escape(n.mounts[i].path) == path + "\\040(deleted)"
    {
      ShownPathIs(n.mounts[i], path);
    }
    if TopMount(n.mounts, path).Some? {
      var i :| 0 <= i < |n.mounts| && n.mounts[i].path == path;
      assert IsMountPointMatch(mps[i], path);
    }
    if ShownDeleted(n, path) {
      var i :| 0 <= i < |n.mounts| && Escape(n.mounts[i].path) == path + "\\040(deleted)";
      assert IsMountPointMatch(mps[i], path);
    }
  }

  /** The other check of the source, against the real table: where every line is well-formed, the
      loop over the parsed table, which searches for the resolved path, finds a target exactly when it
      is mounted, or shown as a deleted directory. Only the grep-based check confuses targets and misses
      symlinked ones. */
  lemma ParsedTableIsExact(n: Node, target: string)
    requires GrepPlain(Resolve(n.links, target)) && AllWellFormed(ShownAll(n.mounts))
    ensures ParseTable(TableText(n)).Ok?
    ensures MatchedIn(ParseTable(TableText(n)).value, Resolve(n.links, target)) <==>
      MountedAt(n, target) || ShownDeleted(n, Resolve(n.links, target))
  {
    ParsePrint(ShownAll(n.mounts));
    MatchedInTable(n, Resolve(n.links, target));
  }

  // ---------- counting mounts ----------

  function CountAt(mounts: seq<Mount>, path: string): nat {
    if mounts == [] then 0
    else CountAt(mounts[..|mounts| - 1], path) + (if mounts[|mounts| - 1].path == path then 1 else 0)
  }

  lemma CountSnoc(mounts: seq<Mount>, m: Mount, path: string)
    ensures CountAt(mounts + [m], path) == CountAt(mounts, path) + (if m.path == path then 1 else 0)
  {
    assert (mounts + [m])[..|mounts|] == mounts;
  }

  lemma {:induction false} CountZero(mounts: seq<Mount>, path: string)
    ensures CountAt(mounts, path) == 0 <==> TopMount(mounts, path).None?
  {
    if mounts != [] { CountZero(mounts[..|mounts| - 1], path); }
  }

  function Without(mounts: seq<Mount>, path: string): seq<Mount> {
    if mounts == [] then []
    else
      Without(mounts[..|mounts| - 1], path)
      + (if mounts[|mounts| - 1].path == path then [] else [mounts[|mounts| - 1]])
  }

  lemma {:induction false} RemoveTopCount(mounts: seq<Mount>, path: string, other: string)
    ensures CountAt(RemoveTop(mounts, path), other) ==
      if other == path && CountAt(mounts, path) > 0 then CountAt(mounts, path) - 1 else CountAt(mounts, other)
    ensures forall m :: m in RemoveTop(mounts, path) ==> m in mounts
  {
    if mounts != [] {
      var front, top := mounts[..|mounts| - 1], mounts[|mounts| - 1];
      RemoveTopCount(front, path, other);
      if top.path != path { CountSnoc(RemoveTop(front, path), top, other); }
    }
  }

  lemma {:induction false} NoneToRemove(mounts: seq<Mount>, path: string)
    requires CountAt(mounts, path) == 0
    ensures Without(mounts, path) == mounts
  {
    if mounts != [] {
      NoneToRemove(mounts[..|mounts| - 1], path);
      assert mounts == mounts[..|mounts| - 1] + [mounts[|mounts| - 1]];
    }
  }

  /** Removing the only mount of a path removes exactly the entries of that path. */
  lemma {:induction false} RemoveOnly(mounts: seq<Mount>, path: string)
    requires CountAt(mounts, path) == 1
    ensures RemoveTop(mounts, path) == Without(mounts, path)
  {
    var front, top := mounts[..|mounts| - 1], mounts[|mounts| - 1];
    if top.path == path {
      NoneToRemove(front, path);
      assert front + [] == front;
    } else {
      RemoveOnly(front, path);
    }
  }
}
