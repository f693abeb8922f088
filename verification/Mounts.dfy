/** Reading the mount table: the six-field parser of /proc/mounts, the loop that searches the
    parsed table, and the grep-based check that the driver relies on (pkg/utils/mounter.go). */
module Mounts {
  import opened GoStrings

  datatype MountPoint = MountPoint(
    device: string, path: string, fstype: string, opts: seq<string>, freq: int, pass: int)

  datatype ParseError = WrongFieldCount(got: nat) | BadNumber(text: string)

  type ParseResult = Result<seq<MountPoint>, ParseError>

  const FIELDS_PER_LINE := 6

  // ---------- the parser ----------

  function ParseLine(line: string): Result<MountPoint, ParseError> {
    var fields := Fields(line);
    if |fields| != FIELDS_PER_LINE then Err(WrongFieldCount(|fields|))
    else
      match Atoi(fields[4])
      case None => Err(BadNumber(fields[4]))
      case Some(freq) =>
        match Atoi(fields[5])
        case None => Err(BadNumber(fields[5]))
        case Some(pass) => Ok(MountPoint(fields[0], fields[1], fields[2], Split(fields[3], ","), freq, pass))
  }

  /** The result of a table whose first part gave `first` and whose rest gives `rest`. */
  function After(first: seq<MountPoint>, rest: ParseResult): ParseResult {
    match rest
    case Err(e) => Err(e)
    case Ok(mps) => Ok(first + mps)
  }

  function ParseLines(lines: seq<string>): ParseResult {
    if lines == [] then Ok([])
    else if lines[0] == "" then ParseLines(lines[1..])
    else
      match ParseLine(lines[0])
      case Err(e) => Err(e)
      case Ok(mp) => After([mp], ParseLines(lines[1..]))
  }

  function ParseTable(content: string): ParseResult {
    ParseLines(Split(content, "\n"))
  }

  method ParseProcMounts(content: string) returns (r: ParseResult)
    ensures r == ParseTable(content)
  {
    var out := [];
    var lines := Split(content, "\n");
    assert lines[0..] == lines;
    NothingBefore(ParseLines(lines));
    for i := 0 to |lines|
      invariant ParseLines(lines) == After(out, ParseLines(lines[i..]))
    {
      var line := lines[i];
      assert lines[i..][0] == line && lines[i..][1..] == lines[i + 1..];
      if line == "" {
        continue;
      }
      var fields := Fields(line);
      if |fields| != FIELDS_PER_LINE {
        return Err(WrongFieldCount(|fields|));
      }
      var mp := MountPoint(fields[0], fields[1], fields[2], Split(fields[3], ","), 0, 0);
      var freq := Atoi(fields[4]);
      if freq == None {
        return Err(BadNumber(fields[4]));
      }
      mp := mp.(freq := freq.value);
      var pass := Atoi(fields[5]);
      if pass == None {
        return Err(BadNumber(fields[5]));
      }
      mp := mp.(pass := pass.value);
      AfterAssociative(out, [mp], ParseLines(lines[i + 1..]));
      out := out + [mp];
    }
    assert out + [] == out;
    return Ok(out);
  }

  lemma NothingBefore(r: ParseResult)
    ensures After([], r) == r
  {
    if r.Ok? { assert [] + r.value == r.value; }
  }

  lemma AfterAssociative(xs: seq<MountPoint>, ys: seq<MountPoint>, r: ParseResult)
    ensures After(xs, After(ys, r)) == After(xs + ys, r)
  {
    if r.Ok? { assert xs + (ys + r.value) == xs + ys + r.value; }
  }

  // ---------- printing ----------

  function PrintLine(mp: MountPoint): string {
    Join([mp.device, mp.path, mp.fstype, Join(mp.opts, ","), Itoa(mp.freq), Itoa(mp.pass)], " ")
  }

  function PrintTable(mps: seq<MountPoint>): string {
    if mps == [] then "" else PrintLine(mps[0]) + "\n" + PrintTable(mps[1..])
  }

  /** The mount points that the six-field format can carry. */
  predicate WellFormed(mp: MountPoint) {
    && IsWord(mp.device) && IsWord(mp.path) && IsWord(mp.fstype)
    && mp.opts != [] && FreeOf(mp.opts, ',') && IsWord(Join(mp.opts, ","))
    && IsInt64(mp.freq) && IsInt64(mp.pass)
  }

  predicate AllWellFormed(mps: seq<MountPoint>) {
    forall i :: 0 <= i < |mps| ==> WellFormed(mps[i])
  }

  lemma PrintedWords(mp: MountPoint)
    requires WellFormed(mp)
    ensures AllWords([mp.device, mp.path, mp.fstype, Join(mp.opts, ","), Itoa(mp.freq), Itoa(mp.pass)])
  {
    ItoaIsWord(mp.freq);
    ItoaIsWord(mp.pass);
  }

  lemma ParseLinePrinted(mp: MountPoint)
    requires WellFormed(mp)
    ensures ParseLine(PrintLine(mp)) == Ok(mp)
  {
    PrintedWords(mp);
    FieldsJoin([mp.device, mp.path, mp.fstype, Join(mp.opts, ","), Itoa(mp.freq), Itoa(mp.pass)]);
    SplitJoin(mp.opts, ',');
    AtoiItoa(mp.freq);
    AtoiItoa(mp.pass);
  }

  lemma PrintLineHasNoNewline(mp: MountPoint)
    requires WellFormed(mp)
    ensures '\n' !in PrintLine(mp) && PrintLine(mp) != ""
  {
    PrintedWords(mp);
    var words := [mp.device, mp.path, mp.fstype, Join(mp.opts, ","), Itoa(mp.freq), Itoa(mp.pass)];
    forall i | 0 <= i < |words| ensures '\n' !in words[i] { NotNewline(words[i]); }
    JoinIsFree(words, " ", '\n');
  }

  function PrintLines(mps: seq<MountPoint>): seq<string> {
    if mps == [] then [] else [PrintLine(mps[0])] + PrintLines(mps[1..])
  }

  /** The lines of a printed table are the printed lines, followed by the empty text after the
      last newline. */
  lemma {:induction false} LinesOfPrinted(mps: seq<MountPoint>)
    requires forall i :: 0 <= i < |mps| ==> '\n' !in PrintLine(mps[i])
    ensures Split(PrintTable(mps), "\n") == PrintLines(mps) + [""]
  {
    if mps != [] {
      LinesOfPrinted(mps[1..]);
      SplitNone(PrintLine(mps[0]), '\n');
      SplitAppend(PrintLine(mps[0]), PrintTable(mps[1..]), '\n');
    }
  }

  lemma ParseLinesCons(line: string, rest: seq<string>)
    requires line != "" && ParseLine(line).Ok?
    ensures ParseLines([line] + rest) == After([ParseLine(line).value], ParseLines(rest))
  {
    assert ([line] + rest)[1..] == rest;
  }

  lemma PrintLinesCons(mps: seq<MountPoint>)
    requires mps != []
    ensures PrintLines(mps) + [""] == [PrintLine(mps[0])] + (PrintLines(mps[1..]) + [""])
  {
  }

  lemma {:induction false} ParsePrintedLines(mps: seq<MountPoint>)
    requires AllWellFormed(mps)
    ensures ParseLines(PrintLines(mps) + [""]) == Ok(mps)
  {
    if mps == [] {
      assert PrintLines(mps) + [""] == [""];
    } else {
      ParsePrintedLines(mps[1..]);
      PrintLineHasNoNewline(mps[0]);
      ParseLinePrinted(mps[0]);
      ParseLinesCons(PrintLine(mps[0]), PrintLines(mps[1..]) + [""]);
      PrintLinesCons(mps);
      assert [mps[0]] + mps[1..] == mps;
    }
  }

  /** Round trip: printing well-formed mount points one per line and parsing gives them back. */
  lemma ParsePrint(mps: seq<MountPoint>)
    requires AllWellFormed(mps)
    ensures ParseTable(PrintTable(mps)) == Ok(mps)
  {
    forall i | 0 <= i < |mps| ensures '\n' !in PrintLine(mps[i]) { PrintLineHasNoNewline(mps[i]); }
    LinesOfPrinted(mps);
    ParsePrintedLines(mps);
  }

  // ---------- what parsing yields ----------

  lemma JoinedOptions(field: string)
    requires IsWord(field)
    ensures Join(Split(field, ","), ",") == field && FreeOf(Split(field, ","), ',')
  {
    JoinSplit(field, ",");
    SplitFree(field, ',');
  }

  lemma ParsedLineWellFormed(line: string)
    requires ParseLine(line).Ok?
    ensures WellFormed(ParseLine(line).value)
  {
    FieldsAreWords(line);
    var fields := Fields(line);
    assert forall i :: 0 <= i < |fields| ==> IsWord(fields[i]);
    JoinedOptions(fields[3]);
  }

  lemma {:induction false} ParsedLinesWellFormed(lines: seq<string>)
    requires ParseLines(lines).Ok?
    ensures AllWellFormed(ParseLines(lines).value)
  {
    if lines != [] {
      ParsedLinesWellFormed(lines[1..]);
      if lines[0] != "" { ParsedLineWellFormed(lines[0]); }
    }
  }

  /** On every text that parses, parse-print-parse equals parse. */
  lemma ParsePrintParse(content: string)
    requires ParseTable(content).Ok?
    ensures ParseTable(PrintTable(ParseTable(content).value)) == ParseTable(content)
  {
    ParsedLinesWellFormed(Split(content, "\n"));
    ParsePrint(ParseTable(content).value);
  }

  lemma {:induction false} ParseLinesAppend(xs: seq<string>, ys: seq<string>)
    ensures ParseLines(xs + ys) ==
      match ParseLines(xs) case Err(e) => Err(e) case Ok(mps) => After(mps, ParseLines(ys))
  {
    if xs == [] {
      assert xs + ys == ys;
      NothingBefore(ParseLines(ys));
    } else {
      assert (xs + ys)[1..] == xs[1..] + ys;
      ParseLinesAppend(xs[1..], ys);
      if xs[0] != "" && ParseLine(xs[0]).Ok? && ParseLines(xs[1..]).Ok? {
        AfterAssociative([ParseLine(xs[0]).value], ParseLines(xs[1..]).value, ParseLines(ys));
      }
    }
  }

  /** Parsing a text joined to another by a newline concatenates their results; the first text
      that fails decides the error. */
  lemma ParseAppend(a: string, b: string)
    ensures ParseTable(a + "\n" + b) ==
      match ParseTable(a) case Err(e) => Err(e) case Ok(mps) => After(mps, ParseTable(b))
  {
    SplitAppend(a, b, '\n');
    ParseLinesAppend(Split(a, "\n"), Split(b, "\n"));
  }

  /** One bad line fails the whole parse, and nothing else does. */
  lemma {:induction false} ParsesIffEveryLineParses(lines: seq<string>)
    ensures ParseLines(lines).Ok? <==>
      forall i :: 0 <= i < |lines| && lines[i] != "" ==> ParseLine(lines[i]).Ok?
  {
    if lines != [] {
      ParsesIffEveryLineParses(lines[1..]);
      assert forall i :: 1 <= i < |lines| ==> lines[i] == lines[1..][i - 1];
      assert lines[0] != "" && ParseLines(lines).Ok? ==> ParseLine(lines[0]).Ok?;
    }
  }

  /** What a line of blank-separated words parses to, exactly: six words of which the last two are numbers,
      and otherwise the count or the first bad number. */
  lemma LineParsesIff(words: seq<string>)
    requires AllWords(words)
    ensures var r := ParseLine(Join(words, " "));
      if |words| != 6 then r == Err(WrongFieldCount(|words|))
      else if Atoi(words[4]).None? then r == Err(BadNumber(words[4]))
      else if Atoi(words[5]).None? then r == Err(BadNumber(words[5]))
      else r.Ok? && r.value.device == words[0] && r.value.path == words[1] && r.value.fstype == words[2]
           && Join(r.value.opts, ",") == words[3] && FreeOf(r.value.opts, ',')
           && Some(r.value.freq) == Atoi(words[4]) && Some(r.value.pass) == Atoi(words[5])
  {
    FieldsJoin(words);
    if |words| == 6 { JoinedOptions(words[3]); }
  }

  // ---------- the search of the parsed table ----------

  predicate IsMountPointMatch(mp: MountPoint, dir: string) {
    mp.path == dir || mp.path == dir + "\\040(deleted)"
  }

  ghost predicate MatchedIn(mps: seq<MountPoint>, dir: string) {
    exists i :: 0 <= i < |mps| && IsMountPointMatch(mps[i], dir)
  }

  datatype StatError = Permission | OtherStatError

  datatype MountCheck = MountCheck(notMnt: bool, failed: bool)

  /** IsNotMountPoint: the device-number test, then the table. The three arguments are what the
      stat calls, the symlink resolution and the read of the mount table gave. */
  method IsNotMountPoint(likely: Result<bool, StatError>, resolved: Option<string>, table: Option<string>)
      returns (r: MountCheck)
    ensures likely == Ok(false) ==> r == MountCheck(false, false)
    ensures likely == Err(OtherStatError) ==> r == MountCheck(true, true)
    ensures likely in {Ok(true), Err(Permission)} ==>
      if resolved.None? || table.None? || ParseTable(table.value).Err? then r == MountCheck(true, true)
      else r == MountCheck(!MatchedIn(ParseTable(table.value).value, resolved.value), false)
  {
    var notMnt := true;
    match likely {
      case Ok(n) => notMnt := n;
      case Err(e) =>
        if e != Permission {
          return MountCheck(true, true);
        }
    }
    if !notMnt {
      return MountCheck(false, false);
    }
    if resolved == None || table == None {
      return MountCheck(true, true);
    }
    var parsed := ParseProcMounts(table.value);
    if parsed.Err? {
      return MountCheck(notMnt, true);
    }
    var mountPoints := parsed.value;
    for i := 0 to |mountPoints|
      invariant notMnt
      invariant forall j :: 0 <= j < i ==> !IsMountPointMatch(mountPoints[j], resolved.value)
    {
      if IsMountPointMatch(mountPoints[i], resolved.value) {
        notMnt := false;
        break;
      }
    }
    return MountCheck(notMnt, false);
  }

  // ---------- grep and IsMounted ----------

  /** Targets that grep searches for as they are, except that a dot matches any character: one line
      without white space at its ends, no other special character, not taken for an option. */
  predicate GrepLiteral(target: string) {
    target != "" && Trimmed(target) && '\n' !in target && target[0] != '-'
    && forall i :: 0 <= i < |target| ==> target[i] !in {'[', '^', '$', '*', '\\'}
  }

  /** Literal targets that the kernel also shows as they are. */
  predicate GrepPlain(target: string) {
    GrepLiteral(target) && forall i :: 0 <= i < |target| ==> target[i] !in {' ', '\t'}
  }

  predicate DotPrefix(line: string, pattern: string) {
    |pattern| <= |line| && forall i :: 0 <= i < |pattern| ==> pattern[i] == '.' || pattern[i] == line[i]
  }

  predicate GrepMatches(line: string, pattern: string) {
    DotPrefix(line, pattern) || (line != "" && GrepMatches(line[1..], pattern))
  }

  function MatchingLines(lines: seq<string>, pattern: string): seq<string> {
    if lines == [] then []
    else (if GrepMatches(lines[0], pattern) then [lines[0]] else []) + MatchingLines(lines[1..], pattern)
  }

  /** What a command left: its exit status and its combined output. */
  datatype Command = Command(ok: bool, output: string)

  /** grep running normally on a file: exit status 1 and no output when no line matches. */
  function Grep(pattern: string, content: string): Command {
    var found := MatchingLines(Split(content, "\n"), pattern);
    if found == [] then Command(false, "") else Command(true, Join(found, "\n") + "\n")
  }

  datatype MountedError = NoTarget | CheckFailed(output: string)

  /** IsMounted, given what grep left. */
  function IsMounted(target: string, grep: Command): Result<bool, MountedError> {
    if target == "" then Err(NoTarget)
    else
      var out := TrimSpace(grep.output);
      if !grep.ok then
        if out == "" then Ok(false) else Err(CheckFailed(out))
      else
        Ok(Contains(out, target))
  }

  lemma {:induction false} SubstringIsMatched(line: string, target: string)
    requires Contains(line, target)
    ensures GrepMatches(line, target)
  {
    if HasPrefix(line, target) {
      assert forall i :: 0 <= i < |target| ==> target[i] == line[i];
    } else {
      SubstringIsMatched(line[1..], target);
    }
  }

  /** grep drops only lines that do not hold the target. */
  lemma {:induction false} MatchingKeepsHolders(lines: seq<string>, target: string)
    ensures SomePartContains(MatchingLines(lines, target), target) <==> SomePartContains(lines, target)
    ensures FreeOf(lines, '\n') ==> FreeOf(MatchingLines(lines, target), '\n')
  {
    if lines != [] {
      MatchingKeepsHolders(lines[1..], target);
      var rest, found := MatchingLines(lines[1..], target), MatchingLines(lines, target);
      assert FreeOf(lines, '\n') ==> FreeOf(lines[1..], '\n');
      assert SomePartContains(lines, target) <==>
             Contains(lines[0], target) || SomePartContains(lines[1..], target) by {
        SomePartCons(lines[0], lines[1..], target);
        assert lines == [lines[0]] + lines[1..];
      }
      if GrepMatches(lines[0], target) {
        SomePartCons(lines[0], rest, target);
      } else {
        assert found == rest;
        if Contains(lines[0], target) { SubstringIsMatched(lines[0], target); }
      }
    }
  }

  lemma SomePartCons(head: string, tail: seq<string>, sub: string)
    ensures SomePartContains([head] + tail, sub) <==> Contains(head, sub) || SomePartContains(tail, sub)
  {
    var all := [head] + tail;
    if Contains(head, sub) { assert Contains(all[0], sub); }
    forall k | 0 <= k < |tail| && Contains(tail[k], sub) ensures SomePartContains(all, sub) {
      assert Contains(all[k + 1], sub);
    }
  }

  lemma SomePartSnocEmpty(parts: seq<string>, sub: string)
    requires sub != ""
    ensures SomePartContains(parts + [""], sub) <==> SomePartContains(parts, sub)
  {
    var all := parts + [""];
    forall k | 0 <= k < |parts| && Contains(parts[k], sub) ensures SomePartContains(all, sub) {
      assert Contains(all[k], sub);
    }
  }

  /** The mount check of the driver, on every table text: it answers whether some line of the
      table holds the target as a substring. */
  lemma IsMountedExact(target: string, content: string)
    requires GrepLiteral(target)
    ensures IsMounted(target, Grep(target, content)) == Ok(SomePartContains(Split(content, "\n"), target))
  {
    var lines := Split(content, "\n");
    var found := MatchingLines(lines, target);
    SplitFree(content, '\n');
    MatchingKeepsHolders(lines, target);
    if found != [] {
      var text := Join(found, "\n");
      ContainsTrimSpace(text + "\n", target);
      ContainsSomePart(text + "\n", '\n', target);
      assert text + "\n" == text + "\n" + "";
      SplitAppend(text, "", '\n');
      SplitJoin(found, '\n');
      SomePartSnocEmpty(found, target);
    }
  }

  lemma NotNewline(target: string)
    requires NoSpace(target)
    ensures '\n' !in target
  {
    assert forall i :: 0 <= i < |target| ==> !IsSpace(target[i]);
  }

  lemma LineMatchIsSubstring(line: string, dir: string)
    requires ParseLine(line).Ok? && IsMountPointMatch(ParseLine(line).value, dir)
    ensures Contains(line, dir)
  {
    var path := Fields(line)[1];
    FieldIsSubstring(line, 1);
    assert HasPrefix(path, dir);
    ContainsTransitive(line, path, dir);
  }

  lemma MatchedCons(mp: MountPoint, rest: seq<MountPoint>, dir: string)
    requires MatchedIn([mp] + rest, dir) && !IsMountPointMatch(mp, dir)
    ensures MatchedIn(rest, dir)
  {
    var all := [mp] + rest;
    var i :| 0 <= i < |all| && IsMountPointMatch(all[i], dir);
    assert all[i] == rest[i - 1];
  }

  /** Whatever the parsed-table loop finds, a substring search of the lines finds too, including a
      directory shown as deleted. */
  lemma {:induction false} TableMatchIsSubstring(lines: seq<string>, dir: string)
    requires ParseLines(lines).Ok? && MatchedIn(ParseLines(lines).value, dir)
    ensures SomePartContains(lines, dir)
  {
    assert lines == [lines[0]] + lines[1..];
    SomePartCons(lines[0], lines[1..], dir);
    if lines[0] == "" {
      TableMatchIsSubstring(lines[1..], dir);
    } else if IsMountPointMatch(ParseLine(lines[0]).value, dir) {
      LineMatchIsSubstring(lines[0], dir);
    } else {
      MatchedCons(ParseLine(lines[0]).value, ParseLines(lines[1..]).value, dir);
      TableMatchIsSubstring(lines[1..], dir);
    }
  }

  /** The grep-based check sees every mount that the parsed-table loop sees. */
  lemma ParsedMatchIsMounted(dir: string, content: string)
    requires GrepLiteral(dir)
    requires ParseTable(content).Ok? && MatchedIn(ParseTable(content).value, dir)
    ensures IsMounted(dir, Grep(dir, content)) == Ok(true)
  {
    TableMatchIsSubstring(Split(content, "\n"), dir);
    IsMountedExact(dir, content);
  }

  // ---------- how the kernel shows a path ----------

  /** The kernel writes blanks, tabs, newlines and backslashes of a table field in octal. */
  function EscapeChar(c: char): string {
    if c == ' ' then "\\040" else if c == '\t' then "\\011" else if c == '\n' then "\\012"
    else if c == '\\' then "\\134" else [c]
  }

  function Escape(s: string): string {
    if s == "" then "" else EscapeChar(s[0]) + Escape(s[1..])
  }

  lemma {:induction false} EscapeIsFree(s: string, c: char)
    requires c in {'\n', '\t', ' '}
    ensures c !in Escape(s)
  {
    if s != "" { EscapeIsFree(s[1..], c); }
  }

  lemma {:induction false} JoinIsFree(parts: seq<string>, sep: string, c: char)
    requires FreeOf(parts, c) && c !in sep
    ensures c !in Join(parts, sep)
  {
    if |parts| > 1 { JoinIsFree(parts[1..], sep, c); }
  }

  lemma {:induction false} EscapePlain(s: string)
    requires forall i :: 0 <= i < |s| ==> s[i] !in {' ', '\t', '\n', '\\'}
    ensures Escape(s) == s
  {
    if s != "" {
      EscapePlain(s[1..]);
      assert s == [s[0]] + s[1..];
    }
  }

  predicate IsOctal(c: char) {
    '0' <= c <= '7'
  }

  /** Reading an escaped path back: a backslash and three octal digits stand for the character with that
      code. */
  function Unescape(s: string): string {
    if s == "" then ""
    else if s[0] == '\\' && |s| >= 4 && IsOctal(s[1]) && IsOctal(s[2]) && IsOctal(s[3]) then
      [((s[1] as int - 48) * 64 + (s[2] as int - 48) * 8 + (s[3] as int - 48)) as char] + Unescape(s[4..])
    else [s[0]] + Unescape(s[1..])
  }

  lemma UnescapeChar(c: char, rest: string)
    ensures Unescape(EscapeChar(c) + rest) == [c] + Unescape(rest)
  {
    var e := EscapeChar(c);
    assert (e + rest)[|e|..] == rest;
  }

  /** The table loses nothing: every escaped text is read back, blanks, tabs, newlines and backslashes
      included. */
  lemma {:induction false} UnescapeEscape(s: string)
    ensures Unescape(Escape(s)) == s
  {
    if s != "" {
      UnescapeChar(s[0], Escape(s[1..]));
      UnescapeEscape(s[1..]);
      assert s == [s[0]] + s[1..];
    }
  }
}
