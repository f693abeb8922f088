/** Deciding what filesystem a device carries: checkFSType of pkg/csi/lvm/util.go. */
module FsProbe {
  import opened GoStrings

  datatype ProbeError = CommandFailed | ErrParse

  // ---------- the blkid loop ----------

  /** One line of blkid's export format: malformed, some other key, or the type. */
  datatype LineKind = Malformed | OtherKey | FsType(name: string)

  function Classify(line: string): LineKind {
    var fields := Split(TrimSpace(line), "=");
    if |fields| != 2 then Malformed
    else if fields[0] == "TYPE" then FsType(fields[1])
    else OtherKey
  }

  function FirstType(lines: seq<string>): Result<string, ProbeError> {
    if lines == [] then Err(ErrParse)
    else
      match Classify(lines[0])
      case Malformed => Err(ErrParse)
      case FsType(t) => Ok(t)
      case OtherKey => FirstType(lines[1..])
  }

  function ParseBlkid(output: string): Result<string, ProbeError> {
    FirstType(Split(output, "\n"))
  }

  /** checkFSType: `file` and `blkid` hold what the two commands printed, or None when they failed. */
  function CheckFsType(file: Option<string>, blkid: Option<string>): Result<string, ProbeError> {
    if file.None? then Err(CommandFailed)
    else if TrimSpace(file.value) == "data" then Ok("")
    else if blkid.None? then Err(CommandFailed)
    else ParseBlkid(blkid.value)
  }

  method ProbeDevice(file: Option<string>, blkid: Option<string>) returns (r: Result<string, ProbeError>)
    ensures r == CheckFsType(file, blkid)
  {
    var output := file;
    if output == None {
      return Err(CommandFailed);
    }
    if TrimSpace(output.value) == "data" {
      return Ok("");
    }
    output := blkid;
    if output == None {
      return Err(CommandFailed);
    }
    var lines := Split(output.value, "\n");
    assert lines[0..] == lines;
    for i := 0 to |lines|
      invariant FirstType(lines) == FirstType(lines[i..])
    {
      assert lines[i..][0] == lines[i] && lines[i..][1..] == lines[i + 1..];
      var fields := Split(TrimSpace(lines[i]), "=");
      if |fields| != 2 {
        return Err(ErrParse);
      }
      if fields[0] == "TYPE" {
        return Ok(fields[1]);
      }
    }
    return Err(ErrParse);
  }

  // ---------- what the loop decides ----------

  /** Exactly one '=' in the text. */
  ghost predicate OneEquals(s: string) {
    exists i :: 0 <= i < |s| && s[i] == '=' && '=' !in s[..i] && '=' !in s[i + 1..]
  }

  lemma TwoFields(k: string, v: string)
    requires '=' !in k && '=' !in v
    ensures Split(k + "=" + v, "=") == [k, v]
  {
    SplitAppend(k, v, '=');
    SplitNone(k, '=');
    SplitNone(v, '=');
  }

  lemma OneEqualsSplits(s: string)
    requires OneEquals(s)
    ensures |Split(s, "=")| == 2
  {
    var i :| 0 <= i < |s| && s[i] == '=' && '=' !in s[..i] && '=' !in s[i + 1..];
    assert s == s[..i] + "=" + s[i + 1..];
    TwoFields(s[..i], s[i + 1..]);
  }

  lemma TwoFieldsOneEquals(s: string)
    requires |Split(s, "=")| == 2
    ensures OneEquals(s)
    ensures var f := Split(s, "="); s == f[0] + "=" + f[1] && '=' !in f[1]
  {
    var f := Split(s, "=");
    JoinSplit(s, "=");
    SplitFree(s, '=');
    assert s == f[0] + "=" + f[1];
    assert s[|f[0]|] == '=' && s[..|f[0]|] == f[0] && s[|f[0]| + 1..] == f[1];
  }

  /** A text that starts with TYPE= has the key TYPE. */
  lemma KeyIsType(s: string)
    requires HasPrefix(s, "TYPE=")
    ensures Split(s, "=")[0] == "TYPE"
  {
    assert s == "TYPE" + "=" + s[5..];
    SplitAppend("TYPE", s[5..], '=');
    SplitNone("TYPE", '=');
  }

  /** A line with exactly one '=' has the key TYPE exactly when it starts with TYPE=. */
  lemma TypeKey(s: string)
    requires |Split(s, "=")| == 2
    ensures Split(s, "=")[0] == "TYPE" <==> HasPrefix(s, "TYPE=")
    ensures HasPrefix(s, "TYPE=") ==> s == "TYPE=" + Split(s, "=")[1] && '=' !in Split(s, "=")[1]
  {
    TwoFieldsOneEquals(s);
    if HasPrefix(s, "TYPE=") { KeyIsType(s); }
    var f := Split(s, "=");
    if f[0] == "TYPE" { assert s == "TYPE=" + f[1]; }
  }

  /** The three kinds of line, said without cutting them up. */
  lemma ClassifyExact(line: string)
    ensures Classify(line) == Malformed <==> !OneEquals(TrimSpace(line))
    ensures Classify(line) == OtherKey <==>
      OneEquals(TrimSpace(line)) && !HasPrefix(TrimSpace(line), "TYPE=")
    ensures forall t :: Classify(line) == FsType(t) <==> TrimSpace(line) == "TYPE=" + t && '=' !in t
  {
    var s := TrimSpace(line);
    if OneEquals(s) { OneEqualsSplits(s); }
    if |Split(s, "=")| == 2 {
      TwoFieldsOneEquals(s);
      TypeKey(s);
    }
    forall t | s == "TYPE=" + t && '=' !in t ensures Classify(line) == FsType(t) {
      assert s == "TYPE" + "=" + t;
      TwoFields("TYPE", t);
    }
  }

  /** A well-formed line with another key, which the loop passes over. */
  ghost predicate Skipped(line: string) {
    OneEquals(TrimSpace(line)) && !HasPrefix(TrimSpace(line), "TYPE=")
  }

  /** The line that decides: every earlier line is passed over. */
  ghost predicate Decides(lines: seq<string>, k: nat) {
    k < |lines| && forall j :: 0 <= j < k ==> Skipped(lines[j])
  }

  lemma SkippedStep(lines: seq<string>)
    requires lines != [] && Skipped(lines[0])
    ensures FirstType(lines) == FirstType(lines[1..])
  {
    ClassifyExact(lines[0]);
  }

  lemma {:induction false} FirstTypeSkips(lines: seq<string>, k: nat)
    requires Decides(lines, k)
    ensures FirstType(lines) == FirstType(lines[k..])
  {
    if k == 0 {
      assert lines[0..] == lines;
    } else {
      SkippedStep(lines);
      assert Decides(lines[1..], k - 1);
      FirstTypeSkips(lines[1..], k - 1);
      assert lines[1..][k - 1..] == lines[k..];
    }
  }

  /** A loop that returns a type returns it at its first line or passes over that line. */
  lemma FirstTypeHead(lines: seq<string>)
    requires FirstType(lines).Ok?
    ensures lines != []
    ensures (TrimSpace(lines[0]) == "TYPE=" + FirstType(lines).value && '=' !in FirstType(lines).value)
      || (Skipped(lines[0]) && FirstType(lines) == FirstType(lines[1..]))
  {
    ClassifyExact(lines[0]);
  }

  lemma {:induction false} FirstTypeFound(lines: seq<string>) returns (k: nat)
    requires FirstType(lines).Ok?
    ensures Decides(lines, k) && TrimSpace(lines[k]) == "TYPE=" + FirstType(lines).value
    ensures '=' !in FirstType(lines).value
  {
    FirstTypeHead(lines);
    if TrimSpace(lines[0]) == "TYPE=" + FirstType(lines).value && '=' !in FirstType(lines).value {
      k := 0;
    } else {
      var j := FirstTypeFound(lines[1..]);
      k := j + 1;
      forall i | 0 <= i < k ensures Skipped(lines[i]) {
        if i > 0 { assert Skipped(lines[1..][i - 1]); }
      }
    }
  }

  /** The first line that is malformed or has the key TYPE is TYPE=t with no further '='. */
  ghost predicate SaysType(output: string, t: string) {
    var lines := Split(output, "\n");
    '=' !in t && exists k: nat :: Decides(lines, k) && TrimSpace(lines[k]) == "TYPE=" + t
  }

  /** The blkid loop returns t exactly when the first line that is malformed or has the key TYPE is
      TYPE=t with no further '='; in every other case it reports a parse error. */
  lemma BlkidExact(output: string, t: string)
    ensures ParseBlkid(output) == Ok(t) <==> SaysType(output, t)
    ensures ParseBlkid(output).Err? ==> ParseBlkid(output) == Err(ErrParse)
  {
    var lines := Split(output, "\n");
    if ParseBlkid(output) == Ok(t) {
      var k := FirstTypeFound(lines);
      assert Decides(lines, k);
    }
    forall k: nat | Decides(lines, k) && TrimSpace(lines[k]) == "TYPE=" + t && '=' !in t
      ensures ParseBlkid(output) == Ok(t)
    {
      FirstTypeSkips(lines, k);
      ClassifyExact(lines[k]);
      assert lines[k..][0] == lines[k];
    }
    FirstTypeError(lines);
  }

  lemma {:induction false} FirstTypeError(lines: seq<string>)
    ensures FirstType(lines).Err? ==> FirstType(lines) == Err(ErrParse)
  {
    if lines != [] { FirstTypeError(lines[1..]); }
  }

  /** A single TYPE line is read as its type. */
  lemma SingleTypeLine(t: string)
    requires NoSpace(t) && '=' !in t && t != ""
    ensures ParseBlkid("TYPE=" + t) == Ok(t)
  {
    var line := "TYPE=" + t;
    assert forall i :: 0 <= i < |t| ==> !IsSpace(t[i]);
    SplitNone(line, '\n');
    TrimmedIsTrimSpace(line);
    ClassifyExact(line);
  }

  /** A device is taken for blank only when `file` said data or blkid gave an empty type, whatever
      the commands printed. */
  lemma BlankOnlyWhenSaid(file: Option<string>, blkid: Option<string>)
    ensures CheckFsType(file, blkid) == Ok("") <==>
      file.Some? && (TrimSpace(file.value) == "data" || (blkid.Some? && SaysType(blkid.value, "")))
  {
    if blkid.Some? {
      BlkidExact(blkid.value, "");
    }
  }

  /** checkFSType returns a type exactly when `file` printed something other than data and blkid says that
      type; it fails exactly when a command that is run fails or blkid says none. */
  lemma TypeOnlyWhenSaid(file: Option<string>, blkid: Option<string>, t: string)
    requires t != ""
    ensures CheckFsType(file, blkid) == Ok(t) <==>
      file.Some? && TrimSpace(file.value) != "data" && blkid.Some? && SaysType(blkid.value, t)
    ensures CheckFsType(file, blkid) == Err(CommandFailed) <==>
      file.None? || (TrimSpace(file.value) != "data" && blkid.None?)
  {
    if blkid.Some? { BlkidExact(blkid.value, t); }
  }
}
