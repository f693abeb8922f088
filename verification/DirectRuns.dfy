/** The server's single isDirect field over whole runs: when Kata's direct-volume table is kept
    clean, and how mixed volumes leak entries or skip work. */
module DirectRuns {
  import opened GoStrings
  import opened Mounts
  import opened Host
  import opened NodeServer
  import opened Runs
  import opened Retry

  /** The flag of the last publish that passed its checks, a restart counting as false. */
  function LastFlag(flag: bool, steps: seq<Step>): bool
    decreases |steps|
  {
    if steps == [] then flag
    else
      var next := match steps[0]
        case PublishStep(q, _) => if Accepted(q) then DirectFlag(q) else flag
        case Restart => false
        case _ => flag;
      LastFlag(next, steps[1..])
  }

  /** The field remembers one call, not one volume. */
  lemma {:induction false} IsDirectIsLastFlag(s: State, steps: seq<Step>)
    ensures Exec(s, steps).isDirect == LastFlag(s.isDirect, steps)
    decreases |steps|
  {
    if steps != [] { IsDirectIsLastFlag(Next(s, steps[0]).0, steps[1..]); }
  }

  /** What a step does to the direct-volume table. */
  lemma PublishDirect(s: State, q: PublishRequest, c: Commands)
    ensures var d' := Publish(s, q, c).0.node.direct;
      d' == s.node.direct ||
      (Accepted(q) && DirectFlag(q) && d' == s.node.direct[q.target := DirectVolume(DeviceOf(q), FsTypeOf(q))])
    ensures Publish(s, q, c).0.isDirect == if Accepted(q) then DirectFlag(q) else s.isDirect
  {
    if Accepted(q) && Provision(s.node, q, c).Some? && !DirectFlag(q) {
      AttachDirect(Provision(s.node, q, c).value, q, NeedsCreate(s.node, DeviceOf(q), c), c);
    }
  }

  lemma AttachDirect(n: Node, q: PublishRequest, created: bool, c: Commands)
    ensures Attach(n, q, created, c).0.direct == n.direct
  {
    var n2 := NodeAtResize(n, q, c);
    if n2.Some? {
      assert n2.value.direct == n.direct;
      ResizeFrame(n2.value, DeviceOf(q), q.target, c);
    }
  }

  lemma UnpublishDirect(s: State, q: UnpublishRequest, c: Commands)
    ensures Unpublish(s, q, c).0.isDirect == s.isDirect
    ensures Unpublish(s, q, c).0.node.direct ==
      if q.volumeId != "" && q.target != "" && s.isDirect && c.directRemove
      then s.node.direct - {q.target} else s.node.direct
  {
  }

  lemma ExpandDirect(s: State, q: ExpandRequest, c: Commands)
    ensures Expand(s, q, c).0.isDirect == s.isDirect && Expand(s, q, c).0.node.direct == s.node.direct
  {
    if c.pv.Some? { ResizeFrame(s.node, Device(VgOfPv(c.pv.value), q.volumeId), q.target, c); }
  }

  /** Unpublish, exactly: with the removal succeeding, the target's entry is gone afterwards if and
      only if the field is set or there was no entry. */
  lemma UnpublishClearsIff(s: State, q: UnpublishRequest, c: Commands)
    requires q.volumeId != "" && q.target != "" && c.directRemove
    ensures q.target !in Unpublish(s, q, c).0.node.direct <==> s.isDirect || q.target !in s.node.direct
    ensures Unpublish(s, q, c).0.node.direct - {q.target} == s.node.direct - {q.target}
  {
    UnpublishDirect(s, q, c);
  }

  /** The same after every run: the last accepted publish decides, whichever volume it was for. */
  lemma LastFlagDecidesClearing(s: State, steps: seq<Step>, q: UnpublishRequest, c: Commands)
    requires q.volumeId != "" && q.target != "" && c.directRemove
    ensures q.target !in Unpublish(Exec(s, steps), q, c).0.node.direct <==>
      LastFlag(s.isDirect, steps) || q.target !in Exec(s, steps).node.direct
  {
    IsDirectIsLastFlag(s, steps);
    UnpublishClearsIff(Exec(s, steps), q, c);
  }

  // ---------- one flag for all volumes ----------

  predicate SharesFlag(step: Step, flag: bool) {
    match step
    case PublishStep(q, _) => Accepted(q) ==> DirectFlag(q) == flag
    case Restart => false
    case _ => true
  }

  predicate AllShareFlag(steps: seq<Step>, flag: bool) {
    forall i :: 0 <= i < |steps| ==> SharesFlag(steps[i], flag)
  }

  /** Entries exist only while the field is set, and only if volumes are direct. */
  predicate DirectInStep(s: State, flag: bool) {
    (s.node.direct != map[] ==> s.isDirect) && (!flag ==> s.node.direct == map[])
  }

  lemma StepDirectInStep(s: State, step: Step, flag: bool)
    requires DirectInStep(s, flag) && SharesFlag(step, flag)
    ensures DirectInStep(Next(s, step).0, flag)
  {
    match step
    case PublishStep(q, c) => PublishDirect(s, q, c);
    case UnpublishStep(q, c) =>
      UnpublishDirect(s, q, c);
      assert s.node.direct == map[] ==> s.node.direct - {q.target} == map[];
    case ExpandStep(q, c) => ExpandDirect(s, q, c);
  }

  lemma {:induction false} RunDirectInStep(s: State, steps: seq<Step>, flag: bool)
    requires DirectInStep(s, flag) && AllShareFlag(steps, flag)
    ensures DirectInStep(Exec(s, steps), flag)
    decreases |steps|
  {
    if steps != [] {
      StepDirectInStep(s, steps[0], flag);
      assert AllShareFlag(steps[1..], flag);
      RunDirectInStep(Next(s, steps[0]).0, steps[1..], flag);
    }
  }

  /** In every run without restarts in which all volumes share one flag, every unpublish whose
      removal succeeds clears its direct entry. */
  lemma SharedFlagNeverLeaks(s: State, steps: seq<Step>, flag: bool, q: UnpublishRequest, c: Commands)
    requires s.node.direct == map[] && AllShareFlag(steps, flag)
    requires q.volumeId != "" && q.target != "" && c.directRemove
    ensures q.target !in Unpublish(Exec(s, steps), q, c).0.node.direct
  {
    RunDirectInStep(s, steps, flag);
    UnpublishClearsIff(Exec(s, steps), q, c);
  }

  // ---------- mixed flags ----------

  /** After a direct publish, any accepted publish of a mounted volume makes the next unpublish
      leave the direct entry behind, whatever the commands do; it reports success as soon as the
      target is not seen mounted. */
  lemma MixedFlagsLeak(s: State, q1: PublishRequest, c1: Commands, q2: PublishRequest, c2: Commands,
                       uq: UnpublishRequest, uc: Commands)
    requires Accepted(q1) && DirectFlag(q1) && Publish(s, q1, c1).1 == Success
    requires Accepted(q2) && !DirectFlag(q2)
    requires uq.volumeId != "" && uq.target == q1.target
    ensures var s2 := Publish(Publish(s, q1, c1).0, q2, c2).0;
      && uq.target in Unpublish(s2, uq, uc).0.node.direct
      && (IsMounted(uq.target, uc.grep) == Ok(false) ==> Unpublish(s2, uq, uc).1 == Success)
  {
    var s1 := Publish(s, q1, c1).0;
    var s2 := Publish(s1, q2, c2).0;
    assert q1.target in s1.node.direct;
    PublishDirect(s1, q2, c2);
    UnpublishDirect(s2, uq, uc);
  }

  /** A restart between publish and unpublish leaks the entry too. */
  lemma RestartLeaks(s: State, q: PublishRequest, c: Commands, uq: UnpublishRequest, uc: Commands)
    requires Accepted(q) && DirectFlag(q) && Publish(s, q, c).1 == Success && uq.target == q.target
    ensures uq.target in Unpublish(Next(Publish(s, q, c).0, Restart).0, uq, uc).0.node.direct
  {
    assert q.target in Publish(s, q, c).0.node.direct;
    UnpublishDirect(Next(Publish(s, q, c).0, Restart).0, uq, uc);
  }

  /** While the last accepted publish was direct, expanding any volume reports success and does
      nothing. */
  lemma FlaggedExpandDoesNothing(s: State, steps: seq<Step>, q: ExpandRequest, c: Commands)
    requires LastFlag(s.isDirect, steps) && q.volumeId != "" && q.target != "" && q.hasRange
    ensures Expand(Exec(s, steps), q, c) == (Exec(s, steps), Success)
  {
    IsDirectIsLastFlag(s, steps);
  }

  /** Expand over runs, exactly: after every run, a successful expand leaves the volume as large as the
      capacity asks for if and only if the last accepted publish was not direct, or the volume was that
      large already. */
  lemma ExpandCoversIff(s: State, steps: seq<Step>, q: ExpandRequest, c: Commands)
    requires c.pv.Some? && Expand(Exec(s, steps), q, c).1 == Success
    requires HonestSize(Exec(s, steps).node, Device(VgOfPv(c.pv.value), q.volumeId), c)
    ensures var dev, n := Device(VgOfPv(c.pv.value), q.volumeId), Exec(s, steps).node;
      Covers(Expand(Exec(s, steps), q, c).0.node, dev, CapacityOf(c.resizePv)) <==>
        !LastFlag(s.isDirect, steps) || Covers(n, dev, CapacityOf(c.resizePv))
  {
    IsDirectIsLastFlag(s, steps);
    if !LastFlag(s.isDirect, steps) {
      ResizeCovers(Exec(s, steps).node, Device(VgOfPv(c.pv.value), q.volumeId), q.target, c);
    }
  }

  /** A successful direct publish hands Kata a device that exists if and only if it existed before or
      was looked for and its LVM type is one of the two known ones. */
  lemma DirectDeviceExistsIff(s: State, q: PublishRequest, c: Commands)
    requires Accepted(q) && DirectFlag(q) && Publish(s, q, c).1 == Success
    ensures q.target in Publish(s, q, c).0.node.direct
    ensures Publish(s, q, c).0.node.direct[q.target].device == DeviceOf(q)
    ensures DeviceOf(q) in Publish(s, q, c).0.node.lvs <==>
      DeviceOf(q) in s.node.lvs || (c.statDevice && (LvmType(q) == "linear" || LvmType(q) == "striping"))
  {
  }
}
