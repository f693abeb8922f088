/** The loop over the system log that sends each line to one of the two repairs (pkg/om/om.go). */
module LogRepair {
  import opened GoStrings
  import opened Mounts
  import Orphans
  import References

  /** GlobalConfigVar, and the kubelet root directory. */
  datatype Config = Config(blockReference: bool, orphanedPod: bool, root: string)

  datatype World = World(orphans: Orphans.State, files: set<string>)

  datatype Outcome = Outcome(orphan: Orphans.Outcome, reference: References.Outcome)

  datatype Kind = Reference | Orphan | Ignored

  function KindOf(cfg: Config, line: string): Kind {
    if cfg.blockReference && Contains(line, References.MARKER) then Reference
    else if cfg.orphanedPod && Contains(line, "rphaned pod")
            && Contains(line, "found, but volume paths are still present on disk") then Orphan
    else Ignored
  }

  function LineStep(cfg: Config, w: World, line: string, o: Outcome): World {
    match KindOf(cfg, line)
    case Reference => w.(files := References.FixReference(cfg.root, w.files, line, o.reference).0)
    case Orphan => w.(orphans := Orphans.FixOrphan(w.orphans, line, o.orphan).0)
    case Ignored => w
  }

  function AfterLines(cfg: Config, w: World, lines: seq<string>, os: seq<Outcome>): World
    requires |os| == |lines|
    decreases |lines|
  {
    if lines == [] then w else AfterLines(cfg, LineStep(cfg, w, lines[0], os[0]), lines[1..], os[1..])
  }

  class Repairer {
    const cfg: Config
    const cleaner: Orphans.Cleaner
    var files: set<string>

    constructor (cfg: Config, cleaner: Orphans.Cleaner, files: set<string>)
      ensures this.cfg == cfg && this.cleaner == cleaner && this.files == files
    {
      this.cfg := cfg;
      this.cleaner := cleaner;
      this.files := files;
    }

    function View(): World
      reads this, cleaner
    {
      World(cleaner.View(), files)
    }

    /** The lines are those the tail of the log gave; each comes with the outcomes of its repair. */
    method CheckMessageFileIssue(lines: seq<string>, os: seq<Outcome>)
      requires |os| == |lines|
      modifies this, cleaner
      ensures View() == AfterLines(cfg, old(View()), lines, os)
    {
      assert lines[0..] == lines && os[0..] == os;
      for i := 0 to |lines|
        invariant AfterLines(cfg, old(View()), lines, os) == AfterLines(cfg, View(), lines[i..], os[i..])
      {
        var line := lines[i];
        assert lines[i..][0] == line && lines[i..][1..] == lines[i + 1..];
        assert os[i..][0] == os[i] && os[i..][1..] == os[i + 1..];
        if cfg.blockReference && Contains(line, References.MARKER) {
          var fs, _ := References.FixReferenceMountIssue(cfg.root, files, line, os[i].reference);
          files := fs;
        } else if cfg.orphanedPod && Contains(line, "rphaned pod")
                  && Contains(line, "found, but volume paths are still present on disk") {
          var _ := cleaner.FixOrphanedPodIssue(line, os[i].orphan);
        }
      }
    }
  }

  /** The line complains about a link, and the link repair is on. */
  predicate IsReferenceLine(cfg: Config, line: string) {
    cfg.blockReference && Contains(line, "is still referenced from other Pods")
  }

  /** The line complains about an orphaned pod's volume paths, and the orphan repair is on. */
  predicate IsOrphanLine(cfg: Config, line: string) {
    && cfg.orphanedPod && Contains(line, "rphaned pod")
    && Contains(line, "found, but volume paths are still present on disk")
  }

  /** Where a line goes: a line about a link changes the files alone, as the link repair does; any other line
      that has both phrases about an orphaned pod changes the pods alone, as the orphan repair does; every
      other line changes nothing, and neither does a line whose repair is off. */
  lemma LinesGoWhereTheyShould(cfg: Config, w: World, line: string, o: Outcome)
    ensures var w' := LineStep(cfg, w, line, o);
      if IsReferenceLine(cfg, line) then
        w'.orphans == w.orphans && w'.files == References.FixReference(cfg.root, w.files, line, o.reference).0
      else if IsOrphanLine(cfg, line) then
        w'.files == w.files && w'.orphans == Orphans.FixOrphan(w.orphans, line, o.orphan).0
      else w' == w
  {
  }

  /** With a repair off, no log changes what it works on; with both off, no log changes anything. */
  lemma {:induction false} RepairsCanBeOff(cfg: Config, w: World, lines: seq<string>, os: seq<Outcome>)
    requires |os| == |lines|
    ensures !cfg.orphanedPod ==> AfterLines(cfg, w, lines, os).orphans == w.orphans
    ensures !cfg.blockReference ==> AfterLines(cfg, w, lines, os).files == w.files
    decreases |lines|
  {
    if lines != [] {
      LinesGoWhereTheyShould(cfg, w, lines[0], os[0]);
      RepairsCanBeOff(cfg, LineStep(cfg, w, lines[0], os[0]), lines[1..], os[1..]);
    }
  }

  /** A line of the log that is responsible for the removal of a file: it was sent to the reference
      repair, it names the file, the file is a block link, and grep's answer allowed the removal. */
  predicate Responsible(cfg: Config, line: string, o: Outcome, file: string) {
    && KindOf(cfg, line) == Reference
    && file in References.ParseReferenceMount(line)
    && References.IsFileBlockLink(cfg.root, file)
    && References.IsFileRemovable(References.GrepFor(o.reference, file))
    && file !in o.reference.removeFails
  }

  /** Over any sequence of log lines and failures: no file appears, and every file that disappears lies
      under the volumeDevices directory, contains /dev/ and was named by a line whose grep allowed it. */
  lemma {:induction false} RemovedFilesHaveCause(cfg: Config, w: World, lines: seq<string>, os: seq<Outcome>)
    requires |os| == |lines|
    ensures AfterLines(cfg, w, lines, os).files <= w.files
    ensures forall file :: file in w.files && file !in AfterLines(cfg, w, lines, os).files ==>
      exists i :: 0 <= i < |lines| && Responsible(cfg, lines[i], os[i], file)
    decreases |lines|
  {
    if lines != [] {
      var w1 := LineStep(cfg, w, lines[0], os[0]);
      var last := AfterLines(cfg, w, lines, os);
      RemovedFilesHaveCause(cfg, w1, lines[1..], os[1..]);
      forall file | file in w.files && file !in last.files
        ensures exists i :: 0 <= i < |lines| && Responsible(cfg, lines[i], os[i], file)
      {
        if file in w1.files {
          var i :| 0 <= i < |lines[1..]| && Responsible(cfg, lines[1..][i], os[1..][i], file);
          assert Responsible(cfg, lines[i + 1], os[i + 1], file);
        } else {
          assert Responsible(cfg, lines[0], os[0], file);
        }
      }
    }
  }

  /** The lines that reach the orphan repair, in order. */
  function OrphanEvents(cfg: Config, lines: seq<string>, os: seq<Outcome>): (events: seq<Orphans.Event>)
    requires |os| == |lines|
    ensures Orphans.OnlyLines(events)
    decreases |lines|
  {
    if lines == [] then []
    else
      (if KindOf(cfg, lines[0]) == Orphan then [Orphans.LogLine(lines[0], os[0].orphan)] else [])
      + OrphanEvents(cfg, lines[1..], os[1..])
  }

  /** To the pods, a log is just those lines. */
  lemma {:induction false} OrphansSeeTheirLines(cfg: Config, w: World, lines: seq<string>, os: seq<Outcome>)
    requires |os| == |lines|
    ensures AfterLines(cfg, w, lines, os).orphans == Orphans.Exec(w.orphans, OrphanEvents(cfg, lines, os))
    decreases |lines|
  {
    if lines != [] {
      var rest := OrphanEvents(cfg, lines[1..], os[1..]);
      OrphansSeeTheirLines(cfg, LineStep(cfg, w, lines[0], os[0]), lines[1..], os[1..]);
      if KindOf(cfg, lines[0]) == Orphan {
        var e := Orphans.LogLine(lines[0], os[0].orphan);
        assert ([e] + rest)[0] == e && ([e] + rest)[1..] == rest;
      } else {
        assert [] + rest == rest;
      }
    }
  }

  /** Over any sequence of log lines and failures, for every volume of every pod: a volume that stays
      keeps its other files, one that goes was removed by a line sent to the orphan repair that found
      it empty but for a mount it cleaned and a JSON file it removed, and a JSON file that goes was
      removed by such a line after its mount. */
  lemma PodVolumesAreSafe(cfg: Config, w: World, lines: seq<string>, os: seq<Outcome>, uid: string, name: string)
    requires |os| == |lines| && Orphans.VolumeOf(w.orphans, uid, name).Some?
    ensures var last, events := AfterLines(cfg, w, lines, os).orphans, OrphanEvents(cfg, lines, os);
      && (if Orphans.VolumeOf(last, uid, name).Some?
          then Orphans.VolumeOf(last, uid, name).value.others == Orphans.VolumeOf(w.orphans, uid, name).value.others
          else exists i: nat :: i < |events| && Orphans.RemovedBy(w.orphans, events, i, uid, name))
      && (Orphans.HasJson(w.orphans, uid, name) && !Orphans.HasJson(last, uid, name) ==>
          exists i: nat :: i < |events| && Orphans.JsonRemovedBy(w.orphans, events, i, uid, name))
  {
    var events := OrphanEvents(cfg, lines, os);
    OrphansSeeTheirLines(cfg, w, lines, os);
    Orphans.DirectoriesGoEmpty(w.orphans, events, uid, name);
    if Orphans.HasJson(w.orphans, uid, name) && !Orphans.HasJson(Orphans.Exec(w.orphans, events), uid, name) {
      Orphans.JsonFilesGoAfterMounts(w.orphans, events, uid, name);
    }
  }

  /** With grep running normally for a named file on the mount table of the moment, the responsible
      line proves that no line of the table held the file's base name. */
  lemma ResponsibleMeansUnmounted(cfg: Config, line: string, o: Outcome, file: string, table: string)
    requires Responsible(cfg, line, o, file) && References.GrepNormal(o.reference, file, table)
    requires GrepLiteral(References.Base(file))
    ensures HasPrefix(file, cfg.root + References.LINK_DIR) && Contains(file, "/dev/")
    ensures !SomePartContains(Split(table, "\n"), References.Base(file))
  {
    References.RemovableHasNoMatch(References.Base(file), table);
  }
}
