/** The mount table over whole runs: no target is mounted twice, what a successful publish or
    unpublish says about it, and where the substring check goes wrong. */
module MountRuns {
  import opened GoStrings
  import opened Mounts
  import opened Host
  import opened NodeServer
  import opened Runs
  import opened Retry

  // ---------- no target is mounted twice ----------

  ghost predicate NoDoubleMount(n: Node) {
    forall t :: CountAt(n.mounts, t) <= 1
  }

  /** Every publish is for a target that grep searches for as it is. */
  predicate LiteralTargets(steps: seq<Step>) {
    forall i :: 0 <= i < |steps| && steps[i].PublishStep? ==> GrepLiteral(steps[i].publish.target)
  }

  predicate PlainTargets(links: map<string, string>, steps: seq<Step>) {
    forall i :: 0 <= i < |steps| && steps[i].PublishStep? ==> Plain(links, steps[i].publish.target)
  }

  /** A publish that gets as far as mounting although its target is mounted, because no line of the
      table holds the target as it is. */
  ghost predicate MountsBlindly(s: State, step: Step) {
    step.PublishStep? &&
    var q, c := step.publish, step.c;
    && Accepted(q) && !DirectFlag(q) && Provision(s.node, q, c).Some?
    && NodeAtResize(Provision(s.node, q, c).value, q, c).Some?
    && MountedAt(s.node, q.target) && !SeenMounted(s.node, q.target)
  }

  lemma FailedGrepCannotTell(target: string, c: Commands)
    requires target != "" && !c.grep.ok && TrimSpace(c.grep.output) != "" && c.statTarget != Absent
    ensures MountednessForPublish(target, c).CannotTell?
  {
  }

  /** Publish takes a mounted target for mounted exactly when a line of the table holds it. */
  lemma MountednessOfMounted(n: Node, target: string, c: Commands)
    requires GrepLiteral(target) && HonestGrep(n, target, c) && HonestStat(n, target, c)
    requires MountedAt(n, target) && !MountednessForPublish(target, c).CannotTell?
    ensures MountednessForPublish(target, c) == if SeenMounted(n, target) then Mounted else NotMounted
  {
    if c.grep == Grep(target, TableText(n)) {
      MountCheckExact(n, target);
    } else {
      FailedGrepCannotTell(target, c);
      assert false;
    }
  }

  lemma AttachSingleIff(n: Node, q: PublishRequest, created: bool, c: Commands)
    requires NoDoubleMount(n) && GrepLiteral(q.target) && HonestGrep(n, q.target, c) && HonestStat(n, q.target, c)
    ensures NoDoubleMount(Attach(n, q, created, c).0) <==>
      !(NodeAtResize(n, q, c).Some? && MountedAt(n, q.target) && !SeenMounted(n, q.target))
  {
    AttachMounts(n, q, created, c);
    var m := NewMount(n.links, q);
    CountZero(n.mounts, m.path);
    var ms := n.mounts + [m];
    forall t ensures CountAt(ms, t) == CountAt(n.mounts, t) + (if t == m.path then 1 else 0) {
      CountSnoc(n.mounts, m, t);
    }
    if NodeAtResize(n, q, c).Some? && MountedAt(n, q.target) {
      MountednessOfMounted(n, q.target, c);
      assert !SeenMounted(n, q.target) ==> CountAt(Attach(n, q, created, c).0.mounts, m.path) == 2;
    }
  }

  /** One publish mounts a target a second time if and only if it mounts blindly. */
  lemma PublishSingleIff(s: State, q: PublishRequest, c: Commands)
    requires NoDoubleMount(s.node) && HonestPublish(s, q, c, TABLE) && GrepLiteral(q.target)
    ensures NoDoubleMount(Publish(s, q, c).0.node) <==> !MountsBlindly(s, PublishStep(q, c))
  {
    if Accepted(q) && Provision(s.node, q, c).Some? {
      var n := Provision(s.node, q, c).value;
      assert n.mounts == s.node.mounts;
      SeenByMounts(s.node, n, q.target);
      if !DirectFlag(q) { AttachSingleIff(n, q, NeedsCreate(s.node, DeviceOf(q), c), c); }
    }
  }

  lemma UnpublishMountsOnce(s: State, q: UnpublishRequest, c: Commands)
    requires NoDoubleMount(s.node)
    ensures NoDoubleMount(Unpublish(s, q, c).0.node)
  {
    UnpublishMounts(s, q, c);
    var path := Resolve(s.node.links, q.target);
    forall t ensures CountAt(RemoveTop(s.node.mounts, path), t) <= 1 {
      RemoveTopCount(s.node.mounts, path, t);
    }
  }

  lemma StepSingleIff(s: State, step: Step)
    requires NoDoubleMount(s.node) && HonestStep(s, step, TABLE)
    requires step.PublishStep? ==> GrepLiteral(step.publish.target)
    ensures NoDoubleMount(Next(s, step).0.node) <==> !MountsBlindly(s, step)
  {
    match step
    case PublishStep(q, c) => PublishSingleIff(s, q, c);
    case UnpublishStep(q, c) => UnpublishMountsOnce(s, q, c);
    case ExpandStep(q, c) => ExpandMounts(s, q, c);
    case Restart =>
  }

  /** At every point of the run, no target is mounted twice. */
  ghost predicate AlwaysSingle(s: State, steps: seq<Step>)
    decreases |steps|
  {
    NoDoubleMount(s.node) && (steps != [] ==> AlwaysSingle(Next(s, steps[0]).0, steps[1..]))
  }

  ghost predicate NeverBlind(s: State, steps: seq<Step>)
    decreases |steps|
  {
    steps != [] ==> !MountsBlindly(s, steps[0]) && NeverBlind(Next(s, steps[0]).0, steps[1..])
  }

  /** In every run over literal targets, no target is ever mounted twice if and only if no publish
      mounts a mounted target that the table does not show as it is. */
  lemma {:induction false} SingleMountsIff(s: State, steps: seq<Step>)
    requires NoDoubleMount(s.node) && HonestRun(s, steps, TABLE) && LiteralTargets(steps)
    ensures AlwaysSingle(s, steps) <==> NeverBlind(s, steps)
    decreases |steps|
  {
    if steps != [] {
      StepSingleIff(s, steps[0]);
      if NoDoubleMount(Next(s, steps[0]).0.node) {
        assert LiteralTargets(steps[1..]);
        SingleMountsIff(Next(s, steps[0]).0, steps[1..]);
      }
    }
  }

  lemma PlainStepIsNotBlind(s: State, step: Step)
    requires step.PublishStep? ==> Plain(s.node.links, step.publish.target)
    ensures !MountsBlindly(s, step)
  {
    if step.PublishStep? && MountedAt(s.node, step.publish.target) {
      MountedIsSeen(s.node, step.publish.target);
    }
  }

  /** In every run over plain targets, no target is ever mounted twice. */
  lemma {:induction false} NeverMountedTwice(s: State, steps: seq<Step>)
    requires NoDoubleMount(s.node) && HonestRun(s, steps, TABLE) && PlainTargets(s.node.links, steps)
    ensures NoDoubleMount(Exec(s, steps).node)
    decreases |steps|
  {
    if steps != [] {
      PlainStepIsNotBlind(s, steps[0]);
      StepSingleIff(s, steps[0]);
      StepLinks(s, steps[0]);
      assert PlainTargets(s.node.links, steps[1..]);
      NeverMountedTwice(Next(s, steps[0]).0, steps[1..]);
    }
  }

  // ---------- what success means ----------

  lemma AttachMountList(n: Node, q: PublishRequest, created: bool, c: Commands)
    requires GrepLiteral(q.target) && c.grep == Grep(q.target, TableText(n))
    requires Attach(n, q, created, c).1 == Success
    ensures Attach(n, q, created, c).0.mounts ==
      if SeenMounted(n, q.target) then n.mounts else n.mounts + [NewMount(n.links, q)]
  {
    MountCheckExact(n, q.target);
    AttachAfterMounting(n, q, created, c);
    var n2 := NodeAtResize(n, q, c).value;
    assert n2.mounts == if SeenMounted(n, q.target) then n.mounts else n.mounts + [NewMount(n.links, q)];
    ResizeFrame(n2, DeviceOf(q), q.target, c);
  }

  /** Publish, exactly: with grep running normally, a successful mounting publish adds one mount of
      the target if no line of the table holds the target as a substring, and none otherwise. This
      also covers targets that the kernel shows escaped. */
  lemma PublishMountList(s: State, q: PublishRequest, c: Commands)
    requires GrepLiteral(q.target) && c.grep == Grep(q.target, TableText(s.node))
    requires !DirectFlag(q) && Publish(s, q, c).1 == Success
    ensures Publish(s, q, c).0.node.mounts ==
      if SeenMounted(s.node, q.target) then s.node.mounts else s.node.mounts + [NewMount(s.node.links, q)]
  {
    PublishIsAttach(s, q, c);
    var n := Provision(s.node, q, c).value;
    SeenByMounts(s.node, n, q.target);
    AttachMountList(n, q, NeedsCreate(s.node, DeviceOf(q), c), c);
  }

  /** A grep that fails without a word counts as "not mounted": every successful publish then mounts
      the target once more. */
  lemma SilentGrepFailureMountsAgain(s: State, q: PublishRequest, c: Commands)
    requires !c.grep.ok && TrimSpace(c.grep.output) == ""
    requires !DirectFlag(q) && Publish(s, q, c).1 == Success
    ensures var path := Resolve(s.node.links, q.target);
      CountAt(Publish(s, q, c).0.node.mounts, path) == CountAt(s.node.mounts, path) + 1
  {
    PublishIsAttach(s, q, c);
    var n := Provision(s.node, q, c).value;
    AttachAfterMounting(n, q, NeedsCreate(s.node, DeviceOf(q), c), c);
    AttachMounts(n, q, NeedsCreate(s.node, DeviceOf(q), c), c);
    CountSnoc(n.mounts, NewMount(n.links, q), Resolve(n.links, q.target));
  }

  // ---------- targets that the table does not show ----------

  /** A target that no line of the table holds: with grep running normally, every successful publish
      mounts it once more. */
  lemma UnseenTargetsPileUp(s: State, q: PublishRequest, c: Commands)
    requires GrepLiteral(q.target) && !SeenMounted(s.node, q.target)
    requires c.grep == Grep(q.target, TableText(s.node)) && !DirectFlag(q) && Publish(s, q, c).1 == Success
    ensures var path := Resolve(s.node.links, q.target);
      CountAt(Publish(s, q, c).0.node.mounts, path) == CountAt(s.node.mounts, path) + 1
  {
    PublishMountList(s, q, c);
    CountSnoc(s.node.mounts, NewMount(s.node.links, q), Resolve(s.node.links, q.target));
  }

  /** And every unpublish of it reports success and removes no mount. */
  lemma UnseenTargetsStayMounted(s: State, q: UnpublishRequest, c: Commands)
    requires q.volumeId != "" && GrepLiteral(q.target) && !SeenMounted(s.node, q.target)
    requires c.grep == Grep(q.target, TableText(s.node))
    ensures Unpublish(s, q, c).1 == Success && Unpublish(s, q, c).0.node.mounts == s.node.mounts
  {
    MountCheckExact(s.node, q.target);
  }

  /** The steps make no mount whose line holds the target. */
  ghost predicate Hides(links: map<string, string>, steps: seq<Step>, target: string) {
    forall i :: 0 <= i < |steps| && steps[i].PublishStep? ==>
      !Contains(TableLine(NewMount(links, steps[i].publish)), target)
  }

  lemma PublishMounts(s: State, q: PublishRequest, c: Commands)
    ensures var ms := Publish(s, q, c).0.node.mounts;
      ms == s.node.mounts || ms == s.node.mounts + [NewMount(s.node.links, q)]
  {
    if Accepted(q) && Provision(s.node, q, c).Some? && !DirectFlag(q) {
      AttachMounts(Provision(s.node, q, c).value, q, NeedsCreate(s.node, DeviceOf(q), c), c);
    }
  }

  lemma StepHides(s: State, step: Step, target: string)
    requires !SeenMounted(s.node, target)
    requires step.PublishStep? ==> !Contains(TableLine(NewMount(s.node.links, step.publish)), target)
    ensures !SeenMounted(Next(s, step).0.node, target)
  {
    match step
    case PublishStep(q, c) => PublishMounts(s, q, c);
    case UnpublishStep(q, c) =>
      UnpublishMounts(s, q, c);
      var path := Resolve(s.node.links, q.target);
      RemoveTopCount(s.node.mounts, path, path);
      var rest := RemoveTop(s.node.mounts, path);
      forall i | 0 <= i < |rest| ensures !Contains(TableLine(rest[i]), target) { assert rest[i] in s.node.mounts; }
    case ExpandStep(q, c) => ExpandMounts(s, q, c);
    case Restart =>
  }

  /** Over every run, whatever fails: a target that no line holds, and that no mount of the run shows,
      is never seen, however often it is mounted. */
  lemma {:induction false} HiddenIsNeverSeen(s: State, steps: seq<Step>, target: string)
    requires !SeenMounted(s.node, target) && Hides(s.node.links, steps, target)
    ensures !SeenMounted(Exec(s, steps).node, target)
    decreases |steps|
  {
    if steps != [] {
      StepHides(s, steps[0], target);
      StepLinks(s, steps[0]);
      assert Hides(s.node.links, steps[1..], target);
      HiddenIsNeverSeen(Next(s, steps[0]).0, steps[1..], target);
    }
  }

  /** So after every such run, a successful publish of the target mounts it once more. */
  lemma HiddenTargetsPileUp(s: State, steps: seq<Step>, q: PublishRequest, c: Commands)
    requires GrepLiteral(q.target) && !SeenMounted(s.node, q.target) && Hides(s.node.links, steps, q.target)
    requires c.grep == Grep(q.target, TableText(Exec(s, steps).node))
    requires !DirectFlag(q) && Publish(Exec(s, steps), q, c).1 == Success
    ensures var path := Resolve(s.node.links, q.target);
      CountAt(Publish(Exec(s, steps), q, c).0.node.mounts, path) == CountAt(Exec(s, steps).node.mounts, path) + 1
  {
    HiddenIsNeverSeen(s, steps, q.target);
    RunLinks(s, steps);
    UnseenTargetsPileUp(Exec(s, steps), q, c);
  }

  /** And an unpublish of it reports success and removes no mount. */
  lemma HiddenTargetsStayMounted(s: State, steps: seq<Step>, q: UnpublishRequest, c: Commands)
    requires q.volumeId != "" && GrepLiteral(q.target)
    requires !SeenMounted(s.node, q.target) && Hides(s.node.links, steps, q.target)
    requires c.grep == Grep(q.target, TableText(Exec(s, steps).node))
    ensures var s1 := Exec(s, steps);
      Unpublish(s1, q, c).1 == Success && Unpublish(s1, q, c).0.node.mounts == s1.node.mounts
  {
    HiddenIsNeverSeen(s, steps, q.target);
    UnseenTargetsStayMounted(Exec(s, steps), q, c);
  }

  /** When the mount of a plain text is hidden: none of the fields that the table shows for it, among
      them the resolved path, holds the text. That is so for a target below a symlink or with a slash
      at its end, unless another field happens to hold it. */
  lemma HiddenIff(links: map<string, string>, q: PublishRequest)
    requires GrepPlain(q.target)
    ensures !Contains(TableLine(NewMount(links, q)), q.target) <==>
      !SomePartContains(LineFields(NewMount(links, q)), q.target)
    ensures !Contains(TableLine(NewMount(links, q)), q.target) ==> Resolve(links, q.target) != q.target
  {
    LineHoldsIff(NewMount(links, q), q.target);
    LineHoldsPath(NewMount(links, q));
    PlainEscape(q.target);
  }

  lemma PathBeforeSlash(path: string)
    requires GrepPlain(path + "/")
    ensures Escape(path) == path && !Contains(path, path + "/")
  {
    forall i | 0 <= i < |path| ensures path[i] !in {' ', '\t', '\n', '\\'} {
      assert path[i] == (path + "/")[i];
    }
    EscapePlain(path);
    if Contains(path, path + "/") { var pre, post := ContainsSplit(path, path + "/"); }
  }

  /** A slash at the end of a target is enough: the kernel shows the path without it, so no field of the
      line holds the target unless the device or the options do. */
  lemma SlashIsHidden(m: Mount, target: string)
    requires GrepPlain(target) && target == m.path + "/"
    requires !Contains(LineFields(m)[0], target) && '/' !in LineFields(m)[2] && '/' !in LineFields(m)[3]
    ensures !Contains(TableLine(m), target)
  {
    LineHoldsIff(m, target);
    PathBeforeSlash(m.path);
    SecondFieldIsPath(m);
    NotAfterSecond(LineFields(m), target);
  }

  lemma SecondFieldIsPath(m: Mount)
    ensures LineFields(m)[1] == Escape(m.path) && '/' !in LineFields(m)[4] && '/' !in LineFields(m)[5]
  {
  }

  lemma NotAfterSecond(fields: seq<string>, target: string)
    requires '/' in target && |fields| >= 2 && forall i :: 2 <= i < |fields| ==> '/' !in fields[i]
    ensures SomePartContains(fields, target) ==> Contains(fields[0], target) || Contains(fields[1], target)
  {
    forall i | 2 <= i < |fields| ensures !Contains(fields[i], target) {
      if Contains(fields[i], target) { ContainsCharacter(fields[i], target, '/'); }
    }
  }

  /** A target with a tab, which the kernel shows escaped, is hidden in every state: every successful
      publish mounts it once more. */
  lemma EscapedTargetsPileUp(s: State, q: PublishRequest, c: Commands)
    requires GrepLiteral(q.target) && '\t' in q.target
    requires c.grep == Grep(q.target, TableText(s.node)) && !DirectFlag(q) && Publish(s, q, c).1 == Success
    ensures var path := Resolve(s.node.links, q.target);
      CountAt(Publish(s, q, c).0.node.mounts, path) == CountAt(s.node.mounts, path) + 1
  {
    EscapedIsNeverSeen(s.node, q.target);
    UnseenTargetsPileUp(s, q, c);
  }

  /** And every unpublish of it reports success and removes no mount. */
  lemma EscapedTargetsStayMounted(s: State, q: UnpublishRequest, c: Commands)
    requires q.volumeId != "" && GrepLiteral(q.target) && '\t' in q.target
    requires c.grep == Grep(q.target, TableText(s.node))
    ensures Unpublish(s, q, c).1 == Success && Unpublish(s, q, c).0.node.mounts == s.node.mounts
  {
    EscapedIsNeverSeen(s.node, q.target);
    UnseenTargetsStayMounted(s, q, c);
  }

  // ---------- targets that it does show ----------

  /** The line of no mount elsewhere holds the target. */
  ghost predicate Isolated(n: Node, target: string) {
    forall i :: 0 <= i < |n.mounts| && n.mounts[i].path != target ==> !Contains(TableLine(n.mounts[i]), target)
  }

  lemma IsolatedSeen(n: Node, target: string)
    requires Plain(n.links, target) && Isolated(n, target)
    ensures SeenMounted(n, target) <==> MountedAt(n, target)
  {
    if MountedAt(n, target) { MountedIsSeen(n, target); }
  }

  /** The target is mounted exactly once, from the given device. */
  predicate MountedOnceFrom(mounts: seq<Mount>, target: string, dev: Device) {
    CountAt(mounts, target) == 1 && TopMount(mounts, target).Some?
    && TopMount(mounts, target).value.source == Volume(dev)
  }

  /** When no line of another mount holds the target and each target belongs to one volume, a
      successful mounting publish leaves the target mounted exactly once, from the volume's own
      device, and touches no other target. */
  lemma PublishMountsOwnDevice(s: State, q: PublishRequest, c: Commands, owner: map<string, Device>)
    requires NoDoubleMount(s.node) && Isolated(s.node, q.target) && Plain(s.node.links, q.target)
    requires Owned(s.node, owner) && Owns(s.node.links, owner, q.target, DeviceOf(q))
    requires c.grep == Grep(q.target, TableText(s.node))
    requires !DirectFlag(q) && Publish(s, q, c).1 == Success
    ensures MountedOnceFrom(Publish(s, q, c).0.node.mounts, q.target, DeviceOf(q))
    ensures Without(Publish(s, q, c).0.node.mounts, q.target) == Without(s.node.mounts, q.target)
  {
    PublishMountList(s, q, c);
    IsolatedSeen(s.node, q.target);
    CountZero(s.node.mounts, q.target);
    if MountedAt(s.node, q.target) {
      OwnedTop(s.node, q.target, owner);
    } else {
      var m := NewMount(s.node.links, q);
      CountSnoc(s.node.mounts, m, q.target);
      WithoutSnoc(s.node.mounts, m);
      assert (s.node.mounts + [m])[|s.node.mounts|] == m;
    }
  }

  /** Removing the mount that was found removes exactly the entries of the target. */
  lemma UmountIsExact(n: Node, target: string, ok: bool)
    requires NoDoubleMount(n) && DoUmount(n, target, ok).Some?
    ensures DoUmount(n, target, ok).value.mounts == Without(n.mounts, Resolve(n.links, target))
  {
    CountZero(n.mounts, Resolve(n.links, target));
    RemoveOnly(n.mounts, Resolve(n.links, target));
  }

  /** A target that the check does not see has no entry to remove. */
  lemma UnseenHasNoEntry(n: Node, target: string)
    requires Plain(n.links, target) && !SeenMounted(n, target)
    ensures Without(n.mounts, target) == n.mounts
  {
    if MountedAt(n, target) { MountedIsSeen(n, target); }
    CountZero(n.mounts, target);
    NoneToRemove(n.mounts, target);
  }

  /** What a successful unpublish did: umount, or nothing because the target was not seen. */
  lemma UnpublishCases(s: State, q: UnpublishRequest, c: Commands)
    requires Unpublish(s, q, c).1 == Success
    ensures var n' := Unpublish(s, q, c).0.node;
      && n'.lvs == s.node.lvs && n'.fs == s.node.fs
      && ((IsMounted(q.target, c.grep) == Ok(true) && DoUmount(s.node, q.target, c.umount).Some?
             && n'.mounts == DoUmount(s.node, q.target, c.umount).value.mounts)
          || (IsMounted(q.target, c.grep) == Ok(false) && n'.mounts == s.node.mounts))
  {
  }

  /** A successful unpublish removes exactly the target's mount and keeps every volume with its
      data. */
  lemma UnpublishExact(s: State, q: UnpublishRequest, c: Commands)
    requires NoDoubleMount(s.node) && Plain(s.node.links, q.target) && HonestGrep(s.node, q.target, c)
    requires Unpublish(s, q, c).1 == Success
    ensures var n' := Unpublish(s, q, c).0.node;
      n'.mounts == Without(s.node.mounts, q.target) && n'.lvs == s.node.lvs && n'.fs == s.node.fs
  {
    UnpublishCases(s, q, c);
    MountCheckExact(s.node, q.target);
    if IsMounted(q.target, c.grep) == Ok(true) {
      UmountIsExact(s.node, q.target, c.umount);
    } else {
      UnseenHasNoEntry(s.node, q.target);
    }
  }

  /** With grep and umount running normally, unpublish succeeds if and only if the target is
      mounted or no line of the table holds it: a target that only occurs inside another mount's
      line can never be unpublished. */
  lemma UnpublishSucceedsIff(s: State, q: UnpublishRequest, c: Commands)
    requires q.volumeId != "" && Plain(s.node.links, q.target)
    requires c.grep == Grep(q.target, TableText(s.node)) && c.umount
    ensures Unpublish(s, q, c).1 == Success <==> MountedAt(s.node, q.target) || !SeenMounted(s.node, q.target)
  {
    MountCheckExact(s.node, q.target);
    if MountedAt(s.node, q.target) { MountedIsSeen(s.node, q.target); }
  }

  lemma {:induction false} WithoutExact(mounts: seq<Mount>, path: string)
    ensures forall m :: m in Without(mounts, path) <==> m in mounts && m.path != path
  {
    if mounts != [] {
      WithoutExact(mounts[..|mounts| - 1], path);
      assert mounts == mounts[..|mounts| - 1] + [mounts[|mounts| - 1]];
    }
  }

  lemma NoneWithout(mounts: seq<Mount>, path: string)
    ensures TopMount(Without(mounts, path), path).None?
  {
    WithoutExact(mounts, path);
  }

  /** Once the mounts of the target are gone, it is seen exactly in the lines of other mounts. */
  lemma SeenWithout(n: Node, n': Node, target: string)
    requires n'.mounts == Without(n.mounts, target)
    ensures SeenMounted(n', target) <==> !Isolated(n, target)
  {
    WithoutExact(n.mounts, target);
    if SeenMounted(n', target) {
      var m :| m in n'.mounts && Contains(TableLine(m), target);
      assert m in n.mounts && m.path != target;
    }
    if !Isolated(n, target) {
      var m :| m in n.mounts && m.path != target && Contains(TableLine(m), target);
      assert m in n'.mounts;
    }
  }

  /** Idempotence of unpublish, exactly: after a successful unpublish, repeating it with grep and umount
      running normally leaves the mounts as they are, and the repeat succeeds if and only if no line of
      another mount holds the target. */
  lemma RepeatedUnpublish(s: State, q: UnpublishRequest, c1: Commands, c2: Commands)
    requires NoDoubleMount(s.node) && Plain(s.node.links, q.target) && HonestGrep(s.node, q.target, c1)
    requires Unpublish(s, q, c1).1 == Success
    requires c2.grep == Grep(q.target, TableText(Unpublish(s, q, c1).0.node)) && c2.umount
    ensures var s1 := Unpublish(s, q, c1).0;
      && Unpublish(s1, q, c2).0.node.mounts == s1.node.mounts
      && (Unpublish(s1, q, c2).1 == Success <==> Isolated(s.node, q.target))
  {
    var s1 := Unpublish(s, q, c1).0;
    UnpublishExact(s, q, c1);
    StepLinks(s, UnpublishStep(q, c1));
    SeenWithout(s.node, s1.node, q.target);
    NoneWithout(s.node.mounts, q.target);
    UnpublishSucceedsIff(s1, q, c2);
    UnpublishMounts(s1, q, c2);
    NothingToRemove(s1.node.mounts, q.target);
  }

  lemma {:induction false} NothingToRemove(mounts: seq<Mount>, path: string)
    requires TopMount(mounts, path).None?
    ensures RemoveTop(mounts, path) == mounts
  {
    if mounts != [] { NothingToRemove(mounts[..|mounts| - 1], path); }
  }

  // ---------- after every run ----------

  /** After any run over plain targets that respects the owners, a successful mounting publish of
      an isolated target leaves it mounted from its own volume, and a successful unpublish directly
      after it restores the table as it was without that target. */
  lemma PublishThenUnpublish(
      s: State, steps: seq<Step>, owner: map<string, Device>,
      q: PublishRequest, c: Commands, uq: UnpublishRequest, uc: Commands)
    requires NoDoubleMount(s.node) && Owned(s.node, owner)
    requires HonestRun(s, steps, TABLE) && PlainTargets(s.node.links, steps) && AllRespectOwners(s.node.links, steps, owner)
    requires var s1 := Exec(s, steps);
      && Isolated(s1.node, q.target) && Plain(s.node.links, q.target) && HonestPublish(s1, q, c, TABLE)
      && c.grep == Grep(q.target, TableText(s1.node))
      && Owns(s.node.links, owner, q.target, DeviceOf(q))
      && !DirectFlag(q) && Publish(s1, q, c).1 == Success
    requires uq.target == q.target && HonestGrep(Publish(Exec(s, steps), q, c).0.node, q.target, uc)
    requires Unpublish(Publish(Exec(s, steps), q, c).0, uq, uc).1 == Success
    ensures var s1 := Exec(s, steps); var s2 := Publish(s1, q, c).0; var s3 := Unpublish(s2, uq, uc).0;
      && MountedOnceFrom(s2.node.mounts, q.target, DeviceOf(q))
      && s3.node.mounts == Without(s1.node.mounts, q.target)
      && s3.node.lvs == s2.node.lvs && s3.node.fs == s2.node.fs
  {
    var s1 := Exec(s, steps);
    NeverMountedTwice(s, steps);
    RunOwned(s, steps, owner);
    RunLinks(s, steps);
    StepLinks(s1, PublishStep(q, c));
    PublishMountsOwnDevice(s1, q, c, owner);
    PlainStepIsNotBlind(s1, PublishStep(q, c));
    PublishSingleIff(s1, q, c);
    UnpublishExact(Publish(s1, q, c).0, uq, uc);
  }

  lemma WithoutSnoc(mounts: seq<Mount>, m: Mount)
    ensures Without(mounts + [m], m.path) == Without(mounts, m.path)
  {
    assert (mounts + [m])[..|mounts|] == mounts;
  }
}
