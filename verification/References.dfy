/** Removing stale block-device links that kubelet's log complains about
    (pkg/om/blockvolume.go). */
module References {
  import opened GoStrings
  import opened Mounts

  const MARKER := "is still referenced from other Pods"

  // ---------- reading the line ----------

  /** The names between the only pair of brackets. */
  function NamesInBrackets(text: string): seq<string> {
    if text == "" || !Contains(text, "[") || !Contains(text, "]") then []
    else
      var left := Split(text, "[");
      if |left| != 2 then []
      else
        var right := Split(left[1], "]");
        if |right| != 2 then [] else Split(right[0], " ")
  }

  function ParseReferenceMount(line: string): seq<string> {
    var parts := Split(line, MARKER);
    if |parts| < 2 then [] else NamesInBrackets(parts[1])
  }

  /** The marker cannot begin inside another occurrence of itself. */
  lemma MarkerHasNoSelfOverlap()
    ensures NoSelfOverlap(MARKER)
  {
    forall k | 0 < k < |MARKER| ensures MARKER[k..] != MARKER[..|MARKER| - k] {
      var suffix, prefix := MARKER[k..], MARKER[..|MARKER| - k];
      assert suffix[0] == MARKER[k] && prefix[0] == MARKER[0];
      if k + 1 < |MARKER| { assert suffix[1] == MARKER[k + 1] && prefix[1] == MARKER[1]; }
    }
  }

  lemma ContainsOneCharacter(s: string, c: char)
    requires c in s
    ensures Contains(s, [c])
  {
    var i :| 0 <= i < |s| && s[i] == c;
    assert s == s[..i] + [c] + s[i + 1..];
    ContainsIn(s[..i], [c], s[i + 1..]);
  }

  /** Every list of at least one name without blanks and brackets, printed in brackets after the
      marker in a line that holds no other marker and no other bracket after it, is read back
      exactly. */
  lemma ReferenceListRoundTrip(pre: string, mid: string, names: seq<string>, post: string)
    requires names != [] && FreeOf(names, ' ') && FreeOf(names, '[') && FreeOf(names, ']')
    requires !Contains(pre, MARKER)
    requires '[' !in mid && '[' !in post && ']' !in post
    requires !Contains(mid + "[" + Join(names, " ") + "]" + post, MARKER)
    ensures ParseReferenceMount(
      pre + "is still referenced from other Pods" + (mid + "[" + Join(names, " ") + "]" + post)) == names
  {
    var list := Join(names, " ");
    var tail := mid + "[" + list + "]" + post;
    MarkerHasNoSelfOverlap();
    SplitAfterAbsent(pre, MARKER, tail);
    SplitAbsent(tail, MARKER);
    NamesAreRead(mid, names, post);
  }

  lemma NamesAreRead(mid: string, names: seq<string>, post: string)
    requires names != [] && FreeOf(names, ' ') && FreeOf(names, '[') && FreeOf(names, ']')
    requires '[' !in mid && '[' !in post && ']' !in post
    ensures NamesInBrackets(mid + "[" + Join(names, " ") + "]" + post) == names
  {
    JoinIsFree(names, " ", '[');
    JoinIsFree(names, " ", ']');
    BracketSplit(mid, Join(names, " "), post);
    SplitJoin(names, ' ');
  }

  lemma BracketSplit(mid: string, list: string, post: string)
    requires '[' !in mid && '[' !in list && '[' !in post && ']' !in list && ']' !in post
    ensures var tail := mid + "[" + list + "]" + post;
      && Contains(tail, "[") && Contains(tail, "]") && tail != ""
      && Split(tail, "[") == [mid, list + "]" + post]
      && Split(list + "]" + post, "]") == [list, post]
  {
    var rest := list + "]" + post;
    var tail := mid + "[" + list + "]" + post;
    assert tail == mid + "[" + rest;
    assert tail[|mid|] == '[' && tail[|mid| + 1 + |list|] == ']';
    ContainsOneCharacter(tail, '[');
    ContainsOneCharacter(tail, ']');
    SplitAppend(mid, rest, '[');
    SplitNone(mid, '[');
    SplitNone(rest, '[');
    SplitAppend(list, post, ']');
    SplitNone(list, ']');
    SplitNone(post, ']');
  }

  /** The names of a text: it holds one opening bracket and after that one closing bracket, with this list
      between them. */
  ghost predicate Lists(text: string, list: string) {
    exists mid, post :: text == mid + "[" + list + "]" + post
      && '[' !in mid && '[' !in list && '[' !in post && ']' !in list && ']' !in post
  }

  /** Names are read exactly off texts with such a list, and are its blank-separated parts. */
  lemma NamesExact(text: string)
    ensures NamesInBrackets(text) != [] <==> exists list :: Lists(text, list)
    ensures forall list :: Lists(text, list) ==> NamesInBrackets(text) == Split(list, " ")
  {
    forall list | Lists(text, list) ensures NamesInBrackets(text) == Split(list, " ") {
      var mid, post :| text == mid + "[" + list + "]" + post
        && '[' !in mid && '[' !in list && '[' !in post && ']' !in list && ']' !in post;
      BracketSplit(mid, list, post);
    }
    if NamesInBrackets(text) != [] {
      var left := Split(text, "[");
      var right := Split(left[1], "]");
      JoinSplit(text, "[");
      JoinSplit(left[1], "]");
      SplitFree(text, '[');
      SplitFree(left[1], ']');
      BracketsBack(text, left, right);
    }
  }

  lemma BracketsBack(text: string, left: seq<string>, right: seq<string>)
    requires |left| == 2 && |right| == 2 && text == Join(left, "[") && left[1] == Join(right, "]")
    requires FreeOf(left, '[') && FreeOf(right, ']')
    ensures Lists(text, right[0])
  {
    assert text == left[0] + "[" + left[1] && left[1] == right[0] + "]" + right[1];
    assert text == left[0] + "[" + right[0] + "]" + right[1];
    assert '[' !in left[0] && '[' !in left[1];
    assert forall c :: c in right[0] || c in right[1] ==> c in left[1];
  }

  /** What follows a second marker does not matter. */
  lemma SecondMarkerEnds(pre: string, text: string, rest: string)
    requires !Contains(pre, MARKER) && !Contains(text, MARKER)
    ensures ParseReferenceMount(pre + MARKER + (text + MARKER + rest)) == ParseReferenceMount(pre + MARKER + text)
  {
    MarkerHasNoSelfOverlap();
    SplitAfterAbsent(pre, MARKER, text + MARKER + rest);
    SplitAfterAbsent(pre, MARKER, text);
    SplitAfterAbsent(text, MARKER, rest);
    SplitAbsent(text, MARKER);
  }

  /** A line without the marker names no link. */
  lemma NoMarkerNoNames(line: string)
    requires !Contains(line, "is still referenced from other Pods")
    ensures ParseReferenceMount(line) == []
  {
    SplitAbsent(line, MARKER);
  }

  // ---------- removing links ----------

  const LINK_DIR := "/plugins/kubernetes.io/csi/volumeDevices"

  /** isFileBlockLink, for the kubelet root directory in use. */
  predicate IsFileBlockLink(root: string, file: string) {
    HasPrefix(file, root + LINK_DIR) && Contains(file, "/dev/")
  }

  function DropTrailingSlashes(path: string): string {
    if path != "" && path[|path| - 1] == '/' then DropTrailingSlashes(path[..|path| - 1]) else path
  }

  /** filepath.Base. */
  function Base(path: string): string {
    var p := DropTrailingSlashes(path);
    if path == "" then "." else if p == "" then "/"
    else var parts := Split(p, "/"); parts[|parts| - 1]
  }

  /** The last component of a path, slashes at its end aside. */
  lemma BaseExact(dir: string, name: string)
    requires name != "" && '/' !in name
    ensures Base(dir + "/" + name) == name && Base(name) == name
    ensures Base(dir + "/" + name + "/") == name
    ensures Base("") == "." && Base("/") == "/"
  {
    var p := dir + "/" + name;
    assert p[|p| - 1] == name[|name| - 1];
    assert (p + "/")[..|p|] == p;
    SplitAppend(dir, name, '/');
    SplitNone(name, '/');
    assert "/"[..0] == "";
  }

  /** isFileRemovable, given what grep left. */
  predicate IsFileRemovable(grep: Command) {
    !(grep.ok && TrimSpace(grep.output) != "")
  }

  /** What grep leaves for each file, and the files that cannot be removed. */
  datatype Outcome = Outcome(greps: map<string, Command>, removeFails: set<string>)

  /** The answer for a file; a grep that left nothing behind has failed. */
  function GrepFor(o: Outcome, file: string): Command {
    if file in o.greps then o.greps[file] else Command(false, "")
  }

  predicate Removes(root: string, files: set<string>, file: string, o: Outcome) {
    && file in files && IsFileBlockLink(root, file)
    && IsFileRemovable(GrepFor(o, file)) && file !in o.removeFails
  }

  function RemoveLinks(root: string, files: set<string>, names: seq<string>, o: Outcome): set<string> {
    set f | f in files && !(f in names && Removes(root, files, f, o))
  }

  function FixReference(root: string, files: set<string>, line: string, o: Outcome): (set<string>, bool) {
    var names := ParseReferenceMount(line);
    (RemoveLinks(root, files, names, o), names != [])
  }

  method FixReferenceMountIssue(root: string, files: set<string>, line: string, o: Outcome)
      returns (files': set<string>, handled: bool)
    ensures (files', handled) == FixReference(root, files, line, o)
  {
    files' := files;
    var linkFiles := ParseReferenceMount(line);
    assert RemoveLinks(root, files, [], o) == files;
    if |linkFiles| == 0 {
      return files, false;
    }
    for i := 0 to |linkFiles|
      invariant files' == RemoveLinks(root, files, linkFiles[..i], o)
    {
      var file := linkFiles[i];
      assert linkFiles[..i + 1] == linkFiles[..i] + [file];
      if file in files' {
        if !IsFileBlockLink(root, file) {
          continue;
        }
        if !IsFileRemovable(GrepFor(o, file)) {
          continue;
        }
        if file !in o.removeFails {
          files' := files' - {file};
        }
      }
    }
    assert linkFiles[..|linkFiles|] == linkFiles;
    return files', true;
  }

  /** grep ran normally for a file on the given mount table. */
  predicate GrepNormal(o: Outcome, file: string, table: string) {
    GrepFor(o, file) == Grep(Base(file), table)
  }

  /** isFileRemovable, exactly: with grep running normally it says yes only if no line of the mount
      table holds the base name. */
  lemma RemovableHasNoMatch(base: string, table: string)
    requires GrepLiteral(base) && IsFileRemovable(Grep(base, table))
    ensures !SomePartContains(Split(table, "\n"), base)
  {
    IsMountedExact(base, table);
    var found := MatchingLines(Split(table, "\n"), base);
    assert found != [] ==> TrimSpace(Join(found, "\n") + "\n") == "";
  }

  /** Every file that a line removes was named in it, lies under the volumeDevices directory, contains
      /dev/, and, if grep ran normally, had no match in the mount table for its base name. */
  lemma RemovedIsStaleLink(root: string, files: set<string>, line: string, o: Outcome, file: string, table: string)
    requires file in files && file !in FixReference(root, files, line, o).0
    ensures file in ParseReferenceMount(line)
    ensures HasPrefix(file, root + LINK_DIR) && Contains(file, "/dev/")
    ensures GrepNormal(o, file, table) && GrepLiteral(Base(file)) ==>
      !SomePartContains(Split(table, "\n"), Base(file))
  {
    if GrepNormal(o, file, table) && GrepLiteral(Base(file)) { RemovableHasNoMatch(Base(file), table); }
  }

  /** The repair, exactly: a file goes if and only if the line names it, it is a block link, nothing
      hinders its removal, and its grep failed or printed nothing. */
  lemma RemovedIff(root: string, files: set<string>, line: string, o: Outcome, file: string)
    requires file in files
    ensures file !in FixReference(root, files, line, o).0 <==>
      && file in ParseReferenceMount(line)
      && HasPrefix(file, root + "/plugins/kubernetes.io/csi/volumeDevices") && Contains(file, "/dev/")
      && file !in o.removeFails
      && (!GrepFor(o, file).ok || TrimSpace(GrepFor(o, file).output) == "")
  {
  }

  /** A link in use is one whose base name some line of the mount table holds. It is kept when grep runs
      normally; a named link that can be removed goes if and only if its grep failed or printed
      nothing, and it does go when grep fails. */
  lemma LinkInUseIsRemovedIff(root: string, files: set<string>, line: string, o: Outcome, file: string, table: string)
    requires GrepLiteral(Base(file)) && SomePartContains(Split(table, "\n"), Base(file))
    requires file in files && file in ParseReferenceMount(line) && IsFileBlockLink(root, file) && file !in o.removeFails
    ensures file !in FixReference(root, files, line, o).0 <==>
      !GrepFor(o, file).ok || TrimSpace(GrepFor(o, file).output) == ""
    ensures GrepNormal(o, file, table) ==> file in FixReference(root, files, line, o).0
    ensures !GrepFor(o, file).ok ==> file !in FixReference(root, files, line, o).0 && !GrepNormal(o, file, table)
  {
    RemovedIff(root, files, line, o, file);
    if IsFileRemovable(Grep(Base(file), table)) { RemovableHasNoMatch(Base(file), table); }
  }
}
