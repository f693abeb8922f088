/** Cleaning and classifying what the LVM commands print on failure (pkg/csi/lvm/vg.go). */
module LvmErrors {
  import opened GoStrings

  // ---------- ignoreWarnings ----------

  predicate IsNoise(line: string) {
    HasPrefix(line, "WARNING") || HasPrefix(line, "File descriptor")
  }

  function TrimLines(lines: seq<string>): (r: seq<string>)
    ensures |r| == |lines|
    ensures forall i :: 0 <= i < |r| ==> r[i] == TrimSpace(lines[i])
  {
    seq(|lines|, i requires 0 <= i < |lines| => TrimSpace(lines[i]))
  }

  /** The lines of a text, each trimmed. */
  function TrimmedLines(str: string): seq<string> {
    TrimLines(Split(str, "\n"))
  }

  function WithoutNoise(lines: seq<string>): seq<string> {
    if lines == [] then []
    else (if IsNoise(lines[0]) then [] else [lines[0]]) + WithoutNoise(lines[1..])
  }

  function CleanError(str: string): string {
    TrimSpace(Join(WithoutNoise(TrimmedLines(str)), "\n"))
  }

  lemma WithoutNoiseStep(lines: seq<string>, i: nat)
    requires i < |lines|
    ensures WithoutNoise(lines[i..]) ==
      if IsNoise(lines[i]) then WithoutNoise(lines[i + 1..]) else [lines[i]] + WithoutNoise(lines[i + 1..])
  {
    assert lines[i..][0] == lines[i] && lines[i..][1..] == lines[i + 1..];
  }

  method IgnoreWarnings(str: string) returns (r: string)
    ensures r == CleanError(str)
  {
    var lines := Split(str, "\n");
    var result: seq<string> := [];
    ghost var trimmed := TrimLines(lines);
    for i := 0 to |lines|
      invariant WithoutNoise(trimmed) == result + WithoutNoise(trimmed[i..])
    {
      var line := TrimSpace(lines[i]);
      WithoutNoiseStep(trimmed, i);
      if HasPrefix(line, "WARNING") {
        continue;
      }
      if HasPrefix(line, "File descriptor") {
        continue;
      }
      result := result + [line];
    }
    assert WithoutNoise(trimmed) == result;
    return TrimSpace(Join(result, "\n"));
  }

  // ---------- what cleaning keeps ----------

  function DropLeadingBlank(lines: seq<string>): seq<string> {
    if lines != [] && lines[0] == "" then DropLeadingBlank(lines[1..]) else lines
  }

  function DropTrailingBlank(lines: seq<string>): (r: seq<string>)
    ensures r <= lines
  {
    if lines != [] && lines[|lines| - 1] == "" then DropTrailingBlank(lines[..|lines| - 1]) else lines
  }

  /** The lines between the first and the last line that is not blank. */
  function Core(lines: seq<string>): seq<string> {
    DropTrailingBlank(DropLeadingBlank(lines))
  }

  /** Lines as cleaning sees them: trimmed, and holding no newline. */
  predicate Clean(lines: seq<string>) {
    forall i :: 0 <= i < |lines| ==> Trimmed(lines[i]) && '\n' !in lines[i]
  }

  predicate Quiet(lines: seq<string>) {
    forall i :: 0 <= i < |lines| ==> !IsNoise(lines[i])
  }

  lemma {:induction false} TrimKeepsOut(s: string, c: char)
    requires c !in s
    ensures c !in TrimSpace(s)
  {
    SuffixOf(s);
    assert TrimSpace(s) <= TrimLeft(s);
  }

  lemma {:induction false} SuffixOf(s: string)
    ensures TrimLeft(s) == s[|s| - |TrimLeft(s)|..]
  {
    if s != "" && IsSpace(s[0]) { SuffixOf(s[1..]); }
  }

  lemma TrimmedLinesClean(str: string)
    ensures Clean(TrimmedLines(str))
  {
    SplitFree(str, '\n');
    var lines := Split(str, "\n");
    forall i | 0 <= i < |lines| ensures Trimmed(TrimSpace(lines[i])) && '\n' !in TrimSpace(lines[i]) {
      TrimKeepsOut(lines[i], '\n');
    }
  }

  lemma {:induction false} WithoutNoiseClean(lines: seq<string>)
    requires Clean(lines)
    ensures Clean(WithoutNoise(lines)) && Quiet(WithoutNoise(lines))
  {
    if lines != [] { WithoutNoiseClean(lines[1..]); }
  }

  lemma {:induction false} CoreClean(lines: seq<string>)
    ensures Clean(lines) ==> Clean(Core(lines))
    ensures Quiet(lines) ==> Quiet(Core(lines))
    ensures Core(lines) == [] || (Core(lines)[0] != "" && Core(lines)[|Core(lines)| - 1] != "")
  {
    CoreLeading(lines);
    CoreTrailing(DropLeadingBlank(lines));
  }

  lemma {:induction false} CoreLeading(lines: seq<string>)
    ensures var r := DropLeadingBlank(lines);
      (Clean(lines) ==> Clean(r)) && (Quiet(lines) ==> Quiet(r)) && (r == [] || r[0] != "")
  {
    if lines != [] && lines[0] == "" { CoreLeading(lines[1..]); }
  }

  lemma {:induction false} CoreTrailing(lines: seq<string>)
    ensures var r := DropTrailingBlank(lines);
      (Clean(lines) ==> Clean(r)) && (Quiet(lines) ==> Quiet(r)) && (r == [] || r[|r| - 1] != "")
  {
    if lines != [] && lines[|lines| - 1] == "" { CoreTrailing(lines[..|lines| - 1]); }
  }

  /** Trimming a joined text drops exactly the blank lines at both ends. */
  lemma {:induction false} TrimLeftJoin(lines: seq<string>)
    requires Clean(lines)
    ensures TrimLeft(Join(lines, "\n")) == Join(DropLeadingBlank(lines), "\n")
  {
    if |lines| <= 1 {
    } else if lines[0] == "" {
      TrimLeftJoin(lines[1..]);
      assert Join(lines, "\n") == "\n" + Join(lines[1..], "\n");
      TrimLeftSkips("\n", Join(lines[1..], "\n"));
    } else {
      assert Join(lines, "\n")[0] == lines[0][0];
    }
  }

  lemma {:induction false} TrimRightJoin(lines: seq<string>)
    requires Clean(lines)
    ensures TrimRight(Join(lines, "\n")) == Join(DropTrailingBlank(lines), "\n")
  {
    if |lines| <= 1 {
    } else {
      var front, last := lines[..|lines| - 1], lines[|lines| - 1];
      assert lines == front + [last];
      JoinAppend(front, [last], "\n");
      if last == "" {
        TrimRightJoin(front);
        assert Join(lines, "\n") == Join(front, "\n") + "\n";
        TrimRightSkips(Join(front, "\n"), "\n");
      } else {
        var text := Join(lines, "\n");
        assert text[|text| - 1] == last[|last| - 1];
      }
    }
  }

  /** Cleaning, on every text: the trimmed lines that are not noise, in order, without the blank
      lines at either end. */
  lemma CleanErrorIsCore(str: string)
    ensures CleanError(str) == Join(Core(WithoutNoise(TrimmedLines(str))), "\n")
  {
    var lines := WithoutNoise(TrimmedLines(str));
    TrimmedLinesClean(str);
    WithoutNoiseClean(TrimmedLines(str));
    TrimLeftJoin(lines);
    CoreLeading(lines);
    TrimRightJoin(DropLeadingBlank(lines));
  }

  /** The lines of a cleaned text. */
  function CleanedLines(str: string): seq<string> {
    var core := Core(WithoutNoise(TrimmedLines(str)));
    if core == [] then [""] else core
  }

  lemma SplitCleanError(str: string)
    ensures Split(CleanError(str), "\n") == CleanedLines(str)
    ensures Clean(CleanedLines(str)) && Quiet(CleanedLines(str))
  {
    var lines := WithoutNoise(TrimmedLines(str));
    CleanErrorIsCore(str);
    TrimmedLinesClean(str);
    WithoutNoiseClean(TrimmedLines(str));
    CoreClean(lines);
    if Core(lines) != [] { SplitJoin(Core(lines), '\n'); }
  }

  lemma {:induction false} QuietIsKept(lines: seq<string>)
    requires Quiet(lines)
    ensures WithoutNoise(lines) == lines
  {
    if lines != [] {
      QuietIsKept(lines[1..]);
      assert lines == [lines[0]] + lines[1..];
    }
  }

  /** Cleaning a cleaned text changes nothing. */
  lemma CleanErrorIdempotent(str: string)
    ensures CleanError(CleanError(str)) == CleanError(str)
  {
    SplitCleanError(str);
    var lines := CleanedLines(str);
    forall i | 0 <= i < |lines| ensures TrimSpace(lines[i]) == lines[i] {
      TrimmedIsTrimSpace(lines[i]);
    }
    assert TrimmedLines(CleanError(str)) == lines;
    QuietIsKept(lines);
    JoinSplit(CleanError(str), "\n");
    TrimmedIsTrimSpace(CleanError(str));
  }

  // ---------- the not-found classifiers ----------

  predicate AnyLine(lines: seq<string>, test: string -> bool) {
    exists i :: 0 <= i < |lines| && test(lines[i])
  }

  const NoLogicalVolume: string -> bool := line => HasPrefix(line, "Failed to find logical volume")
  const NoDevice: string -> bool := line => HasPrefix(line, "Failed to find device")
  const NoLabel: string -> bool := line => HasPrefix(line, "No physical volume label read from")
  const NoVolumeGroup: string -> bool := line => HasPrefix(line, "Volume group") && Contains(line, "not found")

  method SearchLines(err: string, test: string -> bool) returns (found: bool)
    ensures found == AnyLine(Split(err, "\n"), test)
  {
    var lines := Split(err, "\n");
    for i := 0 to |lines|
      invariant forall j :: 0 <= j < i ==> !test(lines[j])
    {
      if test(lines[i]) {
        return true;
      }
    }
    return false;
  }

  /** Some line of the text starts with the prefix. */
  ghost predicate SomeLineStarts(text: string, prefix: string) {
    exists i :: 0 <= i < |Split(text, "\n")| && HasPrefix(Split(text, "\n")[i], prefix)
  }

  method IsLogicalVolumeNotFound(err: string) returns (found: bool)
    ensures found == AnyLine(Split(err, "\n"), NoLogicalVolume)
    ensures found <==> SomeLineStarts(err, "Failed to find logical volume")
  {
    found := SearchLines(err, NoLogicalVolume);
  }

  method IsPhysicalVolumeNotFound(err: string) returns (found: bool)
    ensures found == (AnyLine(Split(err, "\n"), NoDevice) || AnyLine(Split(err, "\n"), NoLabel))
    ensures found <==>
      SomeLineStarts(err, "Failed to find device") || SomeLineStarts(err, "No physical volume label read from")
  {
    found := SearchLines(err, NoDevice);
    if !found {
      found := SearchLines(err, NoLabel);
    }
  }

  method IsVolumeGroupNotFound(err: string) returns (found: bool)
    ensures found == AnyLine(Split(err, "\n"), NoVolumeGroup)
    ensures found <==> exists i :: (0 <= i < |Split(err, "\n")|
      && HasPrefix(Split(err, "\n")[i], "Volume group") && Contains(Split(err, "\n")[i], "not found"))
  {
    found := SearchLines(err, NoVolumeGroup);
  }

  /** A test that cleaning cannot disturb: it rejects blank lines and noise. */
  ghost predicate Robust(test: string -> bool) {
    !test("") && forall line :: test(line) ==> !IsNoise(line)
  }

  lemma {:induction false} NoiseDropsNoHit(lines: seq<string>, test: string -> bool)
    requires Robust(test)
    ensures AnyLine(WithoutNoise(lines), test) <==> AnyLine(lines, test)
  {
    if lines != [] {
      var rest := WithoutNoise(lines[1..]);
      NoiseDropsNoHit(lines[1..], test);
      AnyCons(lines[0], lines[1..], test);
      assert lines == [lines[0]] + lines[1..];
      if IsNoise(lines[0]) {
        assert [] + rest == rest;
      } else {
        AnyCons(lines[0], rest, test);
      }
    }
  }

  lemma AnyCons(head: string, tail: seq<string>, test: string -> bool)
    ensures AnyLine([head] + tail, test) <==> test(head) || AnyLine(tail, test)
  {
    var all := [head] + tail;
    if test(head) { assert test(all[0]); }
    forall k | 0 <= k < |tail| && test(tail[k]) ensures AnyLine(all, test) { assert test(all[k + 1]); }
  }

  lemma {:induction false} LeadingDropsNoHit(lines: seq<string>, test: string -> bool)
    requires Robust(test)
    ensures AnyLine(DropLeadingBlank(lines), test) <==> AnyLine(lines, test)
  {
    if lines != [] && lines[0] == "" {
      LeadingDropsNoHit(lines[1..], test);
      AnyCons(lines[0], lines[1..], test);
      assert lines == [lines[0]] + lines[1..];
    }
  }

  lemma {:induction false} TrailingDropsNoHit(lines: seq<string>, test: string -> bool)
    requires Robust(test)
    ensures AnyLine(DropTrailingBlank(lines), test) <==> AnyLine(lines, test)
  {
    if lines != [] && lines[|lines| - 1] == "" {
      var front := lines[..|lines| - 1];
      TrailingDropsNoHit(front, test);
      forall k | 0 <= k < |front| && test(front[k]) ensures AnyLine(lines, test) { assert test(lines[k]); }
      forall k | 0 <= k < |lines| && test(lines[k]) ensures AnyLine(front, test) { assert test(front[k]); }
    }
  }

  lemma CleaningKeepsHits(str: string, test: string -> bool)
    requires Robust(test)
    ensures AnyLine(Split(CleanError(str), "\n"), test) <==> AnyLine(TrimmedLines(str), test)
  {
    var kept := WithoutNoise(TrimmedLines(str));
    SplitCleanError(str);
    NoiseDropsNoHit(TrimmedLines(str), test);
    LeadingDropsNoHit(kept, test);
    TrailingDropsNoHit(DropLeadingBlank(kept), test);
    if Core(kept) == [] { assert !test([""][0]); }
  }

  lemma AnyLineIs(lines: seq<string>, line: string)
    ensures AnyLine(lines, l => l == line) <==> line in lines
  {
  }

  lemma KeptUnlessNoise(str: string, line: string)
    requires line != ""
    ensures line in Split(CleanError(str), "\n") <==> line in TrimmedLines(str) && !IsNoise(line)
  {
    SplitCleanError(str);
    var isLine := (l: string) => l == line;
    AnyLineIs(TrimmedLines(str), line);
    AnyLineIs(Split(CleanError(str), "\n"), line);
    assert AnyLine(TrimmedLines(str), isLine) <==> line in TrimmedLines(str);
    assert AnyLine(Split(CleanError(str), "\n"), isLine) <==> line in Split(CleanError(str), "\n");
    if !IsNoise(line) {
      CleaningKeepsHits(str, isLine);
    } else {
      assert Quiet(Split(CleanError(str), "\n"));
    }
  }

  /** The line is some line of the text, trimmed. */
  ghost predicate IsTrimmedLine(str: string, line: string) {
    exists i :: 0 <= i < |Split(str, "\n")| && TrimSpace(Split(str, "\n")[i]) == line
  }

  lemma TrimmedMember(str: string, line: string)
    ensures line in TrimmedLines(str) <==> IsTrimmedLine(str, line)
  {
    var raw := TrimmedLines(str);
    if line in raw { var i :| 0 <= i < |raw| && raw[i] == line; }
  }

  /** Which lines cleaning keeps: a line that is not blank is a line of the cleaned text exactly when it is
      some raw line, trimmed, and starts neither with WARNING nor with File descriptor. */
  lemma KeptIff(str: string, line: string)
    requires line != ""
    ensures line in Split(CleanError(str), "\n") <==>
      IsTrimmedLine(str, line) && !HasPrefix(line, "WARNING") && !HasPrefix(line, "File descriptor")
  {
    KeptUnlessNoise(str, line);
    TrimmedMember(str, line);
  }

  lemma PrefixIsRobust(prefix: string, test: string -> bool)
    requires |prefix| >= 2 && prefix[1] != "WARNING"[1] && prefix[1] != "File descriptor"[1]
    requires forall line :: test(line) ==> HasPrefix(line, prefix)
    ensures Robust(test)
  {
    forall line | test(line) ensures !IsNoise(line) {
      assert HasPrefix(line, prefix) && line[1] == prefix[1];
    }
  }

  /** Each classifier, on the cleaned text of every stderr, finds exactly what the trimmed lines of
      the raw text hold. */
  lemma ClassifiersSeeRawLines(stderr: string)
    ensures AnyLine(Split(CleanError(stderr), "\n"), NoLogicalVolume) <==> AnyLine(TrimmedLines(stderr), NoLogicalVolume)
    ensures AnyLine(Split(CleanError(stderr), "\n"), NoDevice) <==> AnyLine(TrimmedLines(stderr), NoDevice)
    ensures AnyLine(Split(CleanError(stderr), "\n"), NoLabel) <==> AnyLine(TrimmedLines(stderr), NoLabel)
    ensures AnyLine(Split(CleanError(stderr), "\n"), NoVolumeGroup) <==> AnyLine(TrimmedLines(stderr), NoVolumeGroup)
  {
    PrefixIsRobust("Failed to find logical volume", NoLogicalVolume);
    PrefixIsRobust("Failed to find device", NoDevice);
    PrefixIsRobust("No physical volume label read from", NoLabel);
    PrefixIsRobust("Volume group", NoVolumeGroup);
    CleaningKeepsHits(stderr, NoLogicalVolume);
    CleaningKeepsHits(stderr, NoDevice);
    CleaningKeepsHits(stderr, NoLabel);
    CleaningKeepsHits(stderr, NoVolumeGroup);
  }
}
