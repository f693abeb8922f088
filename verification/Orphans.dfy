/** Cleaning up after orphaned pods, driven by kubelet's log lines (pkg/om/orphaned.go). */
module Orphans {
  import opened GoStrings

  // ---------- the disk and the memory ----------

  /** A CSI volume directory of a pod: its mount, its vol_data.json, and anything else in it. */
  datatype VolumeDir = VolumeDir(mount: bool, json: bool, others: set<string>)

  type PodDir = map<string, VolumeDir>

  datatype State = State(fixedPods: map<string, string>, pods: map<string, PodDir>)

  /** What the outside world does during one pass: the listing of the pod's volumes (None: it
      cannot be read), and the volumes for which a removal fails. */
  datatype Outcome = Outcome(
    listing: Option<seq<string>>, cleanupFails: set<string>, jsonFails: set<string>, rmdirFails: set<string>)

  predicate Empty(v: VolumeDir) {
    !v.mount && !v.json && v.others == {}
  }

  // ---------- one pass ----------

  /** The pod UID that a line names between the first two quotes after the phrase. */
  function OrphanUid(line: string): Option<string> {
    var parts := Split(line, "rphaned pod");
    if |parts| < 2 then None
    else
      var quoted := Split(parts[1], "\"");
      if |quoted| < 2 then None
      else if |Split(quoted[1], "-")| != 5 then None
      else Some(quoted[1])
  }

  lemma PhraseHasNoSelfOverlap()
    ensures NoSelfOverlap("rphaned pod")
  {
    var m := "rphaned pod";
    forall k | 0 < k < |m| ensures m[k..] != m[..|m| - k] { assert m[k..][0] == m[k] && m[..|m| - k][0] == m[0]; }
  }

  /** The text quoted after the phrase is read back as the UID if it has four dashes, and refused otherwise,
      from any line whose phrase is the first one and is followed by no other before the closing quote,
      whatever comes after that quote. */
  lemma OrphanUidIsRead(pre: string, mid: string, uid: string, post: string)
    requires !Contains(pre, "rphaned pod") && '"' !in mid && '"' !in uid
    requires !Contains(mid + "\"" + uid + "\"", "rphaned pod")
    ensures OrphanUid(pre + "rphaned pod" + (mid + "\"" + uid + "\"" + post)) ==
      if multiset(uid)['-'] == 4 then Some(uid) else None
  {
    var phrase, head := "rphaned pod", mid + "\"" + uid + "\"";
    PhraseHasNoSelfOverlap();
    SplitAfterAbsent(pre, phrase, head + post);
    SplitKeepsHead(head, post, phrase);
    QuotedIsSecond(mid, uid, Split(post, phrase)[0]);
    SplitCount(uid, '-');
  }

  /** A line without the phrase, or without a quote after it, names no pod. */
  lemma NoUid(pre: string, rest: string)
    requires !Contains(pre, "rphaned pod")
    ensures OrphanUid(pre) == None
    ensures '"' !in rest && !Contains(rest, "rphaned pod") ==> OrphanUid(pre + "rphaned pod" + rest) == None
  {
    SplitAbsent(pre, "rphaned pod");
    if '"' !in rest && !Contains(rest, "rphaned pod") {
      PhraseHasNoSelfOverlap();
      SplitAfterAbsent(pre, "rphaned pod", rest);
      SplitAbsent(rest, "rphaned pod");
      SplitNone(rest, '"');
    }
  }

  lemma QuotedIsSecond(mid: string, uid: string, post: string)
    requires '"' !in mid && '"' !in uid
    ensures var quoted := Split(mid + "\"" + uid + "\"" + post, "\""); |quoted| >= 2 && quoted[1] == uid
  {
    assert mid + "\"" + uid + "\"" + post == mid + "\"" + (uid + "\"" + post);
    SplitAppend(mid, uid + "\"" + post, '"');
    SplitAppend(uid, post, '"');
    SplitNone(mid, '"');
    SplitNone(uid, '"');
  }

  function CleanVolume(dir: PodDir, name: string, o: Outcome): PodDir {
    if name !in dir then dir
    else
      var v := dir[name];
      if v.mount && name in o.cleanupFails then dir
      else
        var json := v.json && name in o.jsonFails;
        var v' := VolumeDir(false, json, v.others);
        if Empty(v') && name !in o.rmdirFails then dir - {name} else dir[name := v']
  }

  function CleanVolumes(dir: PodDir, names: seq<string>, o: Outcome): PodDir
    decreases |names|
  {
    if names == [] then dir else CleanVolumes(CleanVolume(dir, names[0], o), names[1..], o)
  }

  predicate IsFixed(s: State, uid: string) {
    uid in s.fixedPods && s.fixedPods[uid] == "fixed"
  }

  function FixOrphan(s: State, line: string, o: Outcome): (State, bool) {
    match OrphanUid(line)
    case None => (s, false)
    case Some(uid) =>
      if IsFixed(s, uid) then (s, true)
      else if uid !in s.pods || o.listing.None? then (s, false)
      else
        var fixed := if o.listing.value == [] then s.fixedPods[uid := "fixed"] else s.fixedPods;
        (State(fixed, s.pods[uid := CleanVolumes(s.pods[uid], o.listing.value, o)]), true)
  }

  /** What a line about a pod answers and remembers: a pod remembered as fixed is passed over; one without a
      tree or a listing is not handled; an empty listing makes the pod be remembered as fixed; and no line
      forgets or remembers anything else. */
  lemma LineIsHandledIff(s: State, line: string, o: Outcome, uid: string)
    requires OrphanUid(line) == Some(uid)
    ensures var (s', handled) := FixOrphan(s, line, o);
      if uid in s.fixedPods && s.fixedPods[uid] == "fixed" then s' == s && handled
      else if uid !in s.pods || o.listing == None then s' == s && !handled
      else handled && s'.pods.Keys == s.pods.Keys
           && s'.fixedPods == if o.listing == Some([]) then s.fixedPods[uid := "fixed"] else s.fixedPods
  {
  }

  class Cleaner {
    var fixedPods: map<string, string>
    var pods: map<string, PodDir>

    constructor (pods: map<string, PodDir>)
      ensures View() == State(map[], pods)
    {
      this.fixedPods := map[];
      this.pods := pods;
    }

    function View(): State
      reads this
    {
      State(fixedPods, pods)
    }

    method FixOrphanedPodIssue(line: string, o: Outcome) returns (handled: bool)
      modifies this
      ensures (View(), handled) == FixOrphan(old(View()), line, o)
    {
      var splitStr := Split(line, "rphaned pod");
      if |splitStr| < 2 {
        return false;
      }
      var partStr := Split(splitStr[1], "\"");
      if |partStr| < 2 {
        return false;
      }
      var orphanUid := partStr[1];
      if |Split(orphanUid, "-")| != 5 {
        return false;
      }
      if orphanUid in fixedPods && fixedPods[orphanUid] == "fixed" {
        return true;
      }
      if orphanUid !in pods || o.listing == None {
        return false;
      }
      var volumes := o.listing.value;
      if |volumes| == 0 {
        fixedPods := fixedPods[orphanUid := "fixed"];
      }
      assert volumes[0..] == volumes;
      assert pods[orphanUid := pods[orphanUid]] == pods;
      for i := 0 to |volumes|
        invariant orphanUid in pods
        invariant pods == old(pods)[orphanUid := pods[orphanUid]]
        invariant fixedPods == if volumes == [] then old(fixedPods)[orphanUid := "fixed"] else old(fixedPods)
        invariant CleanVolumes(old(pods)[orphanUid], volumes, o) == CleanVolumes(pods[orphanUid], volumes[i..], o)
      {
        assert volumes[i..][0] == volumes[i] && volumes[i..][1..] == volumes[i + 1..];
        CleanOne(orphanUid, volumes[i], o);
      }
      return true;
    }

    /** The body of the loop over one pod's volumes. */
    method CleanOne(uid: string, name: string, o: Outcome)
      requires uid in pods
      modifies this`pods
      ensures pods == old(pods)[uid := CleanVolume(old(pods)[uid], name, o)]
    {
      var dir := pods[uid];
      assert pods[uid := dir] == pods;
      if name !in dir {
        return;
      }
      var v := dir[name];
      if v.mount {
        if name in o.cleanupFails {
          return;
        }
        v := v.(mount := false);
      }
      if v.json {
        if name !in o.jsonFails {
          v := v.(json := false);
        }
      }
      if Empty(v) && name !in o.rmdirFails {
        pods := pods[uid := dir - {name}];
      } else {
        pods := pods[uid := dir[name := v]];
      }
    }
  }

  // ---------- what a pass does to a pod's tree ----------

  /** The mount of a volume is absent, or the pass can clean it. */
  predicate MountGoes(v: VolumeDir, name: string, o: Outcome) {
    v.mount ==> name !in o.cleanupFails
  }

  /** A volume directory that is empty once its mount is cleaned and its JSON file removed, and that can
      be removed itself. */
  predicate Removable(v: VolumeDir, name: string, o: Outcome) {
    v.others == {} && MountGoes(v, name, o) && (v.json ==> name !in o.jsonFails) && name !in o.rmdirFails
  }

  /** The fate of one volume in a pass, exactly. A volume that is not listed, or whose mount cannot be
      cleaned, stays as it is. Otherwise its mount is gone; its directory goes if and only if that is
      empty by then and can be removed; if it stays it keeps its other files, and its JSON file exactly
      when that could not be removed. */
  ghost predicate VolumePassed(dir: PodDir, dir': PodDir, name: string, names: seq<string>, o: Outcome)
    requires name in dir
  {
    var v := dir[name];
    if name !in names || !MountGoes(v, name, o) then name in dir' && dir'[name] == v
    else if Removable(v, name, o) then name !in dir'
    else name in dir' && !dir'[name].mount && dir'[name].others == v.others
         && (dir'[name].json <==> v.json && name in o.jsonFails)
  }

  ghost predicate Passed(dir: PodDir, dir': PodDir, names: seq<string>, o: Outcome) {
    dir'.Keys <= dir.Keys && forall name :: name in dir ==> VolumePassed(dir, dir', name, names, o)
  }

  lemma CleanVolumePassed(dir: PodDir, name: string, o: Outcome)
    ensures Passed(dir, CleanVolume(dir, name, o), [name], o)
  {
  }

  lemma PassedTwice(a: PodDir, b: PodDir, c: PodDir, head: string, tail: seq<string>, o: Outcome)
    requires Passed(a, b, [head], o) && Passed(b, c, tail, o)
    ensures Passed(a, c, [head] + tail, o)
  {
    forall name | name in a ensures VolumePassed(a, c, name, [head] + tail, o) {
      assert VolumePassed(a, b, name, [head], o);
      assert name in [head] + tail <==> name == head || name in tail;
      if name in b { assert VolumePassed(b, c, name, tail, o); }
    }
  }

  /** A whole pass, whatever the listing shows and however often. */
  lemma {:induction false} CleanVolumesPassed(dir: PodDir, names: seq<string>, o: Outcome)
    ensures Passed(dir, CleanVolumes(dir, names, o), names, o)
    decreases |names|
  {
    if names != [] {
      var dir1 := CleanVolume(dir, names[0], o);
      CleanVolumePassed(dir, names[0], o);
      CleanVolumesPassed(dir1, names[1..], o);
      PassedTwice(dir, dir1, CleanVolumes(dir1, names[1..], o), names[0], names[1..], o);
      assert names == [names[0]] + names[1..];
    }
  }

  // ---------- whole runs ----------

  /** A log line with its outcomes, or a change that kubelet makes to a pod's tree. */
  datatype Event = LogLine(line: string, o: Outcome) | Kubelet(uid: string, dir: PodDir)

  function Next(s: State, e: Event): State {
    match e
    case LogLine(line, o) => FixOrphan(s, line, o).0
    case Kubelet(uid, dir) => s.(pods := s.pods[uid := dir])
  }

  function Exec(s: State, events: seq<Event>): State
    decreases |events|
  {
    if events == [] then s else Exec(Next(s, events[0]), events[1..])
  }

  predicate OnlyLines(events: seq<Event>) {
    forall i :: 0 <= i < |events| ==> events[i].LogLine?
  }

  /** The volume directory of a name in a pod's tree, if there is one. */
  function VolumeOf(s: State, uid: string, name: string): Option<VolumeDir> {
    if uid in s.pods && name in s.pods[uid] then Some(s.pods[uid][name]) else None
  }

  predicate HasJson(s: State, uid: string, name: string) {
    VolumeOf(s, uid, name).Some? && VolumeOf(s, uid, name).value.json
  }

  /** The event is a line about this pod whose pass lists the volume, and the pod is not yet fixed. */
  predicate Treats(s: State, e: Event, uid: string, name: string) {
    && e.LogLine? && OrphanUid(e.line) == Some(uid) && !IsFixed(s, uid)
    && e.o.listing.Some? && name in e.o.listing.value
  }

  /** One line: what it changes about a volume, it changes by treating it, and then as a pass does. */
  lemma LineTreats(s: State, e: Event, uid: string, name: string)
    requires e.LogLine? && VolumeOf(s, uid, name).Some?
    ensures var v, v' := VolumeOf(s, uid, name).value, VolumeOf(Next(s, e), uid, name);
      if Treats(s, e, uid, name) && MountGoes(v, name, e.o) then
        if Removable(v, name, e.o) then v' == None
        else v'.Some? && !v'.value.mount && v'.value.others == v.others
             && (v'.value.json <==> v.json && name in e.o.jsonFails)
      else v' == Some(v)
  {
    if OrphanUid(e.line) == Some(uid) && !IsFixed(s, uid) && e.o.listing.Some? {
      CleanVolumesPassed(s.pods[uid], e.o.listing.value, e.o);
      assert VolumePassed(s.pods[uid], CleanVolumes(s.pods[uid], e.o.listing.value, e.o), name, e.o.listing.value, e.o);
    }
  }

  /** Event i removed the volume directory: in the state it met, the directory held nothing but a mount
      that the same pass cleaned and a JSON file that it removed. */
  ghost predicate RemovedBy(s: State, events: seq<Event>, i: nat, uid: string, name: string)
    requires i < |events|
  {
    var before := Exec(s, events[..i]);
    && Treats(before, events[i], uid, name) && VolumeOf(before, uid, name).Some?
    && Removable(VolumeOf(before, uid, name).value, name, events[i].o)
  }

  /** Event i removed the JSON file: its mount was absent or cleaned in the same pass. */
  ghost predicate JsonRemovedBy(s: State, events: seq<Event>, i: nat, uid: string, name: string)
    requires i < |events|
  {
    var before := Exec(s, events[..i]);
    && Treats(before, events[i], uid, name) && HasJson(before, uid, name)
    && MountGoes(VolumeOf(before, uid, name).value, name, events[i].o)
    && name !in events[i].o.jsonFails
  }

  lemma ExecPrefix(s: State, events: seq<Event>, i: nat)
    requires events != [] && i < |events|
    ensures Exec(s, events[..i + 1]) == Exec(Next(s, events[0]), events[1..][..i])
  {
    assert events[..i + 1][1..] == events[1..][..i];
  }

  lemma CausesShift(s: State, events: seq<Event>, i: nat, uid: string, name: string)
    requires i + 1 < |events|
    ensures RemovedBy(Next(s, events[0]), events[1..], i, uid, name) ==> RemovedBy(s, events, i + 1, uid, name)
    ensures JsonRemovedBy(Next(s, events[0]), events[1..], i, uid, name) ==> JsonRemovedBy(s, events, i + 1, uid, name)
  {
    ExecPrefix(s, events, i);
    assert events[1..][i] == events[i + 1];
  }

  /** Over any sequence of log lines and command failures: a volume that is still there has the files
      it had besides its mount and JSON file; a volume directory that is gone was removed by a line
      that found it empty but for a mount it cleaned and a JSON file it removed. */
  lemma {:induction false} DirectoriesGoEmpty(s: State, events: seq<Event>, uid: string, name: string)
    requires OnlyLines(events) && VolumeOf(s, uid, name).Some?
    ensures var last := VolumeOf(Exec(s, events), uid, name);
      if last.Some? then last.value.others == VolumeOf(s, uid, name).value.others
      else exists i: nat :: i < |events| && RemovedBy(s, events, i, uid, name)
    decreases |events|
  {
    if events != [] {
      var s1 := Next(s, events[0]);
      assert events[..0] == [] && OnlyLines(events[1..]);
      LineTreats(s, events[0], uid, name);
      if VolumeOf(s1, uid, name).None? {
        assert RemovedBy(s, events, 0, uid, name);
        StaysAway(s1, events[1..], uid, name);
      } else {
        DirectoriesGoEmpty(s1, events[1..], uid, name);
        if VolumeOf(Exec(s, events), uid, name).None? {
          var i: nat :| i < |events[1..]| && RemovedBy(s1, events[1..], i, uid, name);
          CausesShift(s, events, i, uid, name);
        }
      }
    }
  }

  /** And a JSON file that is gone was removed by a line that found its mount absent or cleaned it. */
  lemma {:induction false} JsonFilesGoAfterMounts(s: State, events: seq<Event>, uid: string, name: string)
    requires OnlyLines(events) && HasJson(s, uid, name) && !HasJson(Exec(s, events), uid, name)
    ensures exists i: nat :: i < |events| && JsonRemovedBy(s, events, i, uid, name)
    decreases |events|
  {
    var s1 := Next(s, events[0]);
    assert events[..0] == [] && OnlyLines(events[1..]);
    LineTreats(s, events[0], uid, name);
    if !HasJson(s1, uid, name) {
      assert JsonRemovedBy(s, events, 0, uid, name);
    } else {
      JsonFilesGoAfterMounts(s1, events[1..], uid, name);
      var i: nat :| i < |events[1..]| && JsonRemovedBy(s1, events[1..], i, uid, name);
      CausesShift(s, events, i, uid, name);
    }
  }

  /** Lines create nothing: a volume that is not there stays away. */
  lemma {:induction false} StaysAway(s: State, events: seq<Event>, uid: string, name: string)
    requires OnlyLines(events) && VolumeOf(s, uid, name).None?
    ensures VolumeOf(Exec(s, events), uid, name).None?
    decreases |events|
  {
    if events != [] {
      if uid in s.pods && events[0].o.listing.Some? {
        CleanVolumesPassed(s.pods[uid], events[0].o.listing.value, events[0].o);
      }
      StaysAway(Next(s, events[0]), events[1..], uid, name);
    }
  }

  /** A listing that shows exactly what is there. */
  ghost predicate Lists(listing: seq<string>, dir: PodDir) {
    forall name :: name in dir <==> name in listing
  }

  /** A line about this pod that read an empty listing. */
  predicate MarksFixed(e: Event, uid: string) {
    e.LogLine? && OrphanUid(e.line) == Some(uid) && e.o.listing == Some([])
  }

  /** A pass marks a pod fixed only on an empty listing, which is the truth if the listing is true. */
  lemma MarkedOnlyWhenEmpty(s: State, e: Event, uid: string)
    requires !IsFixed(s, uid) && IsFixed(Next(s, e), uid)
    ensures MarksFixed(e, uid) && uid in s.pods
    ensures Lists([], s.pods[uid]) ==> s.pods[uid] == map[]
  {
  }

  /** In every run, kubelet's own changes included, a pod that came to be marked fixed has an event that
      read an empty listing for it. */
  lemma {:induction false} FixedHasEmptyListing(s: State, events: seq<Event>, uid: string)
    requires !IsFixed(s, uid) && IsFixed(Exec(s, events), uid)
    ensures exists i :: 0 <= i < |events| && MarksFixed(events[i], uid)
    decreases |events|
  {
    var s1 := Next(s, events[0]);
    if IsFixed(s1, uid) {
      MarkedOnlyWhenEmpty(s, events[0], uid);
    } else {
      FixedHasEmptyListing(s1, events[1..], uid);
      var i :| 0 <= i < |events[1..]| && MarksFixed(events[1..][i], uid);
      assert MarksFixed(events[i + 1], uid);
    }
  }

  /** The volume directory holds a file that is neither its mount nor its JSON file. */
  predicate HasOthers(s: State, uid: string, name: string) {
    VolumeOf(s, uid, name).Some? && VolumeOf(s, uid, name).value.others != {}
  }

  /** A line reads the pod's true listing, or none; kubelet leaves some other file in the volume. */
  ghost predicate Truthful(s: State, e: Event, uid: string, name: string) {
    match e
    case LogLine(line, o) =>
      OrphanUid(line) == Some(uid) && uid in s.pods && o.listing.Some? ==> Lists(o.listing.value, s.pods[uid])
    case Kubelet(id, dir) => id == uid ==> name in dir && dir[name].others != {}
  }

  ghost predicate TruthfulRun(s: State, events: seq<Event>, uid: string, name: string)
    decreases |events|
  {
    events != [] ==> Truthful(s, events[0], uid, name) && TruthfulRun(Next(s, events[0]), events[1..], uid, name)
  }

  lemma StepKeepsOthers(s: State, e: Event, uid: string, name: string)
    requires !IsFixed(s, uid) && HasOthers(s, uid, name) && Truthful(s, e, uid, name)
    ensures !IsFixed(Next(s, e), uid) && HasOthers(Next(s, e), uid, name)
  {
    if e.LogLine? { LineTreats(s, e, uid, name); }
    if IsFixed(Next(s, e), uid) {
      MarkedOnlyWhenEmpty(s, e, uid);
      assert false;
    }
  }

  /** While listings are true, a pod with a volume that holds other files is never marked fixed, and the
      volume never goes, over every run and whatever fails. */
  lemma {:induction false} OthersAreNeverFixed(s: State, events: seq<Event>, uid: string, name: string)
    requires !IsFixed(s, uid) && HasOthers(s, uid, name) && TruthfulRun(s, events, uid, name)
    ensures !IsFixed(Exec(s, events), uid) && HasOthers(Exec(s, events), uid, name)
    decreases |events|
  {
    if events != [] {
      StepKeepsOthers(s, events[0], uid, name);
      OthersAreNeverFixed(Next(s, events[0]), events[1..], uid, name);
    }
  }

  /** The tree of a pod as kubelet's own changes alone would leave it. */
  function KubeletView(view: Option<PodDir>, events: seq<Event>, uid: string): Option<PodDir>
    decreases |events|
  {
    if events == [] then view
    else
      var next := if events[0].Kubelet? && events[0].uid == uid then Some(events[0].dir) else view;
      KubeletView(next, events[1..], uid)
  }

  function TreeOf(s: State, uid: string): Option<PodDir> {
    if uid in s.pods then Some(s.pods[uid]) else None
  }

  /** Once a pod is marked fixed, no line ever touches its tree again, whatever kubelet puts there. */
  lemma {:induction false} FixedIsNeverTouched(s: State, events: seq<Event>, uid: string)
    requires IsFixed(s, uid)
    ensures IsFixed(Exec(s, events), uid)
    ensures TreeOf(Exec(s, events), uid) == KubeletView(TreeOf(s, uid), events, uid)
    decreases |events|
  {
    if events != [] {
      StepKeepsFixed(s, events[0], uid);
      FixedIsNeverTouched(Next(s, events[0]), events[1..], uid);
    }
  }

  lemma StepKeepsFixed(s: State, e: Event, uid: string)
    requires IsFixed(s, uid)
    ensures IsFixed(Next(s, e), uid)
    ensures TreeOf(Next(s, e), uid) == if e.Kubelet? && e.uid == uid then Some(e.dir) else TreeOf(s, uid)
  {
  }

  // ---------- two passes are enough ----------

  predicate NothingFails(o: Outcome) {
    o.listing.Some? && o.cleanupFails == {} && o.jsonFails == {} && o.rmdirFails == {}
  }

  ghost predicate OnlyMountAndJson(dir: PodDir) {
    forall name :: name in dir ==> dir[name].others == {}
  }

  lemma {:induction false} CleanedAway(dir: PodDir, names: seq<string>, o: Outcome)
    requires NothingFails(o) && OnlyMountAndJson(dir) && forall name :: name in dir ==> name in names
    ensures CleanVolumes(dir, names, o) == map[]
    decreases |names|
  {
    if names != [] {
      var dir1 := CleanVolume(dir, names[0], o);
      assert dir1 == dir - {names[0]};
      CleanedAway(dir1, names[1..], o);
    }
  }

  /** If nothing fails and listings are true, two lines about a pod mark it fixed exactly when its
      volume directories hold only the mount and the JSON file; its tree is then clean. */
  lemma TwoPassesFixIff(s: State, line1: string, o1: Outcome, line2: string, o2: Outcome, uid: string)
    requires OrphanUid(line1) == Some(uid) && OrphanUid(line2) == Some(uid)
    requires uid in s.pods && !IsFixed(s, uid) && s.pods[uid] != map[]
    requires NothingFails(o1) && Lists(o1.listing.value, s.pods[uid])
    requires var s1 := FixOrphan(s, line1, o1).0;
      uid in s1.pods && NothingFails(o2) && Lists(o2.listing.value, s1.pods[uid])
    ensures var s2 := FixOrphan(FixOrphan(s, line1, o1).0, line2, o2).0;
      && (IsFixed(s2, uid) <==> OnlyMountAndJson(s.pods[uid]))
      && (IsFixed(s2, uid) ==> uid in s2.pods && s2.pods[uid] == map[])
  {
    var dir := s.pods[uid];
    var dir1 := CleanVolumes(dir, o1.listing.value, o1);
    assert o1.listing.value != [] by {
      var name :| name in dir;
      assert name in o1.listing.value;
    }
    CleanVolumesPassed(dir, o1.listing.value, o1);
    if OnlyMountAndJson(dir) {
      CleanedAway(dir, o1.listing.value, o1);
      var left := o2.listing.value;
      assert forall i :: 0 <= i < |left| ==> left[i] in dir1;
    } else {
      var name :| name in dir && dir[name].others != {};
      assert VolumePassed(dir, dir1, name, o1.listing.value, o1);
      assert name in o2.listing.value;
    }
  }
}
