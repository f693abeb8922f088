/** Cgroup directory names and their parsers, for both cgroup drivers
    (pkg/utils/cgroup_driver.go). */
module Cgroup {
  import opened GoStrings

  /** The pod QoS class; Unknown stands for any other text. */
  datatype Qos = Burstable | BestEffort | Guaranteed | Unknown

  datatype Runtime = Docker | Containerd

  datatype Pattern = Pattern(prefix: string, suffix: string)

  // ---------- systemd ----------

  function ReplaceAll(s: string, from: char, to: char): (r: string)
    ensures |r| == |s|
    ensures forall i :: 0 <= i < |s| ==> r[i] == if s[i] == from then to else s[i]
  {
    seq(|s|, i requires 0 <= i < |s| => if s[i] == from then to else s[i])
  }

  function PodPrefix(qos: Qos): string
    requires qos != Unknown
  {
    match qos
    case Burstable => "kubepods-burstable-pod"
    case BestEffort => "kubepods-besteffort-pod"
    case Guaranteed => "kubepods-pod"
  }

  function PodDir(qos: Qos, podUid: string): string {
    if qos == Unknown then "/" else PodPrefix(qos) + ReplaceAll(podUid, '-', '_') + ".slice/"
  }

  datatype CgroupError = BadContainerId | UnknownProtocol | NoPattern

  function ContainerDir(id: string): Result<string, CgroupError> {
    var hashId := Split(id, "://");
    if |hashId| < 2 then Err(BadContainerId)
    else if hashId[0] == "docker" then Ok("docker-" + hashId[1] + ".scope/")
    else if hashId[0] == "containerd" then Ok("cri-containerd-" + hashId[1] + ".scope/")
    else Err(UnknownProtocol)
  }

  predicate Fits(basename: string, p: Pattern) {
    HasPrefix(basename, p.prefix) && HasSuffix(basename, p.suffix)
  }

  /** No text can use a character both for the prefix and for the suffix. */
  predicate Disjoint(p: Pattern) {
    p.suffix != "" && p.suffix[0] !in p.prefix
  }

  /** Hence the bounds of the slice between them are valid on every basename. */
  lemma FitsBounds(basename: string, p: Pattern)
    requires Disjoint(p) && Fits(basename, p)
    ensures |p.prefix| + |p.suffix| <= |basename|
  {
    var at := |basename| - |p.suffix|;
    assert basename[at] == p.suffix[0];
    assert forall i :: 0 <= i < |p.prefix| ==> p.prefix[i] == basename[i];
  }

  function Middle(basename: string, p: Pattern): string
    requires Disjoint(p) && Fits(basename, p)
  {
    FitsBounds(basename, p);
    basename[|p.prefix|..|basename| - |p.suffix|]
  }

  /** The parsers' loop: the first pattern that fits gives the text between its two ends. */
  function ParseBy(patterns: seq<Pattern>, basename: string): Result<string, CgroupError>
    requires forall i :: 0 <= i < |patterns| ==> Disjoint(patterns[i])
  {
    if patterns == [] then Err(NoPattern)
    else if Fits(basename, patterns[0]) then Ok(Middle(basename, patterns[0]))
    else ParseBy(patterns[1..], basename)
  }

  function PodPattern(qos: Qos): (p: Pattern)
    requires qos != Unknown
    ensures Disjoint(p)
  {
    Pattern(PodPrefix(qos), ".slice")
  }

  function ContainerPattern(rt: Runtime): (p: Pattern)
    ensures Disjoint(p)
  {
    match rt
    case Docker => Pattern("docker-", ".scope")
    case Containerd => Pattern("cri-containerd-", ".scope")
  }

  /** The patterns in the order in which they are tried. */
  const POD_PATTERNS := [PodPattern(BestEffort), PodPattern(Burstable), PodPattern(Guaranteed)]
  const CONTAINER_PATTERNS := [ContainerPattern(Docker), ContainerPattern(Containerd)]

  function PodIdParser(basename: string): Result<string, CgroupError> {
    ParseBy(POD_PATTERNS, basename)
  }

  function ContainerIdParser(basename: string): Result<string, CgroupError> {
    ParseBy(CONTAINER_PATTERNS, basename)
  }

  lemma ParseByCons(p: Pattern, rest: seq<Pattern>, basename: string)
    requires Disjoint(p) && forall i :: 0 <= i < |rest| ==> Disjoint(rest[i])
    ensures ParseBy([p] + rest, basename) ==
      if Fits(basename, p) then Ok(Middle(basename, p)) else ParseBy(rest, basename)
  {
    assert ([p] + rest)[1..] == rest;
  }

  lemma Printed(p: Pattern, id: string)
    requires Disjoint(p)
    ensures Fits(p.prefix + id + p.suffix, p) && Middle(p.prefix + id + p.suffix, p) == id
  {
    var s := p.prefix + id + p.suffix;
    assert s == p.prefix + (id + p.suffix) && s[|s| - |p.suffix|..] == p.suffix;
    assert Fits(s, p);
  }

  lemma Reprinted(basename: string, p: Pattern)
    requires Disjoint(p) && Fits(basename, p)
    ensures basename == p.prefix + Middle(basename, p) + p.suffix
  {
    FitsBounds(basename, p);
  }

  lemma PodParserUnfolded(basename: string)
    ensures PodIdParser(basename) ==
      if Fits(basename, PodPattern(BestEffort)) then Ok(Middle(basename, PodPattern(BestEffort)))
      else if Fits(basename, PodPattern(Burstable)) then Ok(Middle(basename, PodPattern(Burstable)))
      else if Fits(basename, PodPattern(Guaranteed)) then Ok(Middle(basename, PodPattern(Guaranteed)))
      else Err(NoPattern)
  {
    var be, bu, gu := PodPattern(BestEffort), PodPattern(Burstable), PodPattern(Guaranteed);
    assert POD_PATTERNS == [be] + [bu, gu] && [bu, gu] == [bu] + [gu] && [gu] == [gu] + [];
    ParseByCons(be, [bu, gu], basename);
    ParseByCons(bu, [gu], basename);
    ParseByCons(gu, [], basename);
  }

  lemma OnePatternFits(basename: string, q1: Qos, q2: Qos)
    requires q1 != Unknown && q2 != Unknown
    requires HasPrefix(basename, PodPrefix(q1)) && HasPrefix(basename, PodPrefix(q2))
    ensures q1 == q2
  {
    assert PodPrefix(q1)[9] == basename[9] == PodPrefix(q2)[9];
    assert PodPrefix(q1)[10] == basename[10] == PodPrefix(q2)[10];
  }

  lemma FittingIsRead(basename: string, qos: Qos)
    requires qos != Unknown && Fits(basename, PodPattern(qos))
    ensures PodIdParser(basename) == Ok(Middle(basename, PodPattern(qos)))
  {
    PodParserUnfolded(basename);
    if Fits(basename, PodPattern(BestEffort)) { OnePatternFits(basename, qos, BestEffort); }
    if Fits(basename, PodPattern(Burstable)) { OnePatternFits(basename, qos, Burstable); }
  }

  /** The pod parser accepts exactly the three printed forms, and reads back what lies between. */
  lemma PodIdExact(basename: string, id: string)
    ensures PodIdParser(basename) == Ok(id) <==>
      exists qos :: qos != Unknown && basename == PodPrefix(qos) + id + ".slice"
  {
    if PodIdParser(basename) == Ok(id) {
      PodParserUnfolded(basename);
      var q :| q != Unknown && Fits(basename, PodPattern(q));
      FittingIsRead(basename, q);
      Reprinted(basename, PodPattern(q));
      assert q != Unknown && basename == PodPrefix(q) + id + ".slice";
    }
    forall qos: Qos | qos != Unknown && basename == PodPrefix(qos) + id + ".slice"
      ensures PodIdParser(basename) == Ok(id)
    {
      Printed(PodPattern(qos), id);
      FittingIsRead(basename, qos);
    }
  }

  /** Parsing a printed pod directory, without its trailing slash, returns the UID with dashes
      replaced by underscores, for all three classes. */
  lemma PodDirRoundTrip(qos: Qos, podUid: string)
    requires qos != Unknown
    ensures var dir := PodDir(qos, podUid);
      HasSuffix(dir, "/") && PodIdParser(dir[..|dir| - 1]) == Ok(ReplaceAll(podUid, '-', '_'))
  {
    var dir, id := PodDir(qos, podUid), ReplaceAll(podUid, '-', '_');
    assert dir[..|dir| - 1] == PodPrefix(qos) + id + ".slice";
    PodIdExact(dir[..|dir| - 1], id);
  }

  /** The pod directory of each class; a class that is not known gives the root. */
  lemma PodDirNames(podUid: string, id: string)
    requires |id| == |podUid| && forall i :: 0 <= i < |id| ==> id[i] == if podUid[i] == '-' then '_' else podUid[i]
    ensures PodDir(Burstable, podUid) == "kubepods-burstable-pod" + id + ".slice/"
    ensures PodDir(BestEffort, podUid) == "kubepods-besteffort-pod" + id + ".slice/"
    ensures PodDir(Guaranteed, podUid) == "kubepods-pod" + id + ".slice/"
    ensures PodDir(Unknown, podUid) == "/"
  {
    assert ReplaceAll(podUid, '-', '_') == id;
  }

  /** The pod parser accepts exactly the names of the three classes. */
  lemma PodIdNames(basename: string, id: string)
    ensures PodIdParser(basename) == Ok(id) <==>
      || basename == "kubepods-burstable-pod" + id + ".slice"
      || basename == "kubepods-besteffort-pod" + id + ".slice"
      || basename == "kubepods-pod" + id + ".slice"
  {
    PodIdExact(basename, id);
    assert PodPrefix(Burstable) == "kubepods-burstable-pod" && PodPrefix(BestEffort) == "kubepods-besteffort-pod"
           && PodPrefix(Guaranteed) == "kubepods-pod";
  }

  lemma PodPrefixesDiffer(q1: Qos, id1: string, q2: Qos, id2: string)
    requires q1 != Unknown && q2 != Unknown
    requires PodPrefix(q1) + id1 == PodPrefix(q2) + id2
    ensures q1 == q2 && id1 == id2
  {
    var a, b := PodPrefix(q1) + id1, PodPrefix(q2) + id2;
    assert a[9] == PodPrefix(q1)[9] && b[9] == PodPrefix(q2)[9] && a[10] == b[10];
    assert a[10] == PodPrefix(q1)[10] && b[10] == PodPrefix(q2)[10];
    assert a[|PodPrefix(q1)|..] == id1 && b[|PodPrefix(q2)|..] == id2;
  }

  /** Two pods share a directory exactly when they share the class and their UIDs agree up to
      dashes and underscores. */
  lemma PodDirCollision(q1: Qos, uid1: string, q2: Qos, uid2: string)
    requires q1 != Unknown && q2 != Unknown
    ensures PodDir(q1, uid1) == PodDir(q2, uid2) <==>
      q1 == q2 && ReplaceAll(uid1, '-', '_') == ReplaceAll(uid2, '-', '_')
  {
    var id1, id2 := ReplaceAll(uid1, '-', '_'), ReplaceAll(uid2, '-', '_');
    if PodDir(q1, uid1) == PodDir(q2, uid2) {
      var a, b := PodPrefix(q1) + id1, PodPrefix(q2) + id2;
      assert PodDir(q1, uid1)[..|a|] == a && PodDir(q2, uid2)[..|b|] == b;
      PodPrefixesDiffer(q1, id1, q2, id2);
    }
  }

  /** On UIDs without underscores the directory determines the class and the UID. */
  lemma PodDirInjective(q1: Qos, uid1: string, q2: Qos, uid2: string)
    requires q1 != Unknown && q2 != Unknown && '_' !in uid1 && '_' !in uid2
    requires PodDir(q1, uid1) == PodDir(q2, uid2)
    ensures q1 == q2 && uid1 == uid2
  {
    PodDirCollision(q1, uid1, q2, uid2);
    var id1, id2 := ReplaceAll(uid1, '-', '_'), ReplaceAll(uid2, '-', '_');
    forall i | 0 <= i < |uid1| ensures uid1[i] == uid2[i] { assert id1[i] == id2[i]; }
  }

  /** With underscores allowed, two UIDs can share a directory. */
  lemma UnderscoreCollision()
    ensures PodDir(Burstable, "a-b") == PodDir(Burstable, "a_b") && "a-b" != "a_b"
  {
    assert ReplaceAll("a-b", '-', '_') == ReplaceAll("a_b", '-', '_');
    assert "a-b"[1] != "a_b"[1];
  }

  function Protocol(rt: Runtime): string {
    match rt case Docker => "docker" case Containerd => "containerd"
  }

  /** The hash part of a container id is what precedes a further "://". */
  lemma ContainerHash(rt: Runtime, hash: string)
    ensures Split(Protocol(rt) + "://" + hash, "://") == [Protocol(rt)] + Split(hash, "://")
  {
    var pre := Protocol(rt);
    forall j | 0 <= j < |pre| ensures !HasPrefix(pre[j..] + "://" + hash, "://") {
      assert (pre[j..] + "://" + hash)[0] == pre[j] && pre[j] != ':';
    }
    SplitFirst(pre, "://", hash);
  }

  /** A printed container name is read back, whichever runtime it belongs to. */
  lemma ContainerNameIsRead(rt: Runtime, hash: string)
    ensures var p := ContainerPattern(rt); ContainerIdParser(p.prefix + hash + p.suffix) == Ok(hash)
  {
    var docker, cri := ContainerPattern(Docker), ContainerPattern(Containerd);
    var p := ContainerPattern(rt);
    var base := p.prefix + hash + p.suffix;
    Printed(p, hash);
    assert CONTAINER_PATTERNS == [docker] + [cri] && [cri] == [cri] + [];
    ParseByCons(docker, [cri], base);
    ParseByCons(cri, [], base);
    assert base[0] == p.prefix[0];
    assert HasPrefix(base, docker.prefix) ==> base[0] == docker.prefix[0];
  }

  /** The container parser accepts exactly the names of the two runtimes. */
  lemma ContainerIdExact(basename: string, id: string)
    ensures ContainerIdParser(basename) == Ok(id) <==>
      basename == "docker-" + id + ".scope" || basename == "cri-containerd-" + id + ".scope"
  {
    var docker, cri := ContainerPattern(Docker), ContainerPattern(Containerd);
    assert CONTAINER_PATTERNS == [docker] + [cri] && [cri] == [cri] + [];
    ParseByCons(docker, [cri], basename);
    ParseByCons(cri, [], basename);
    if ContainerIdParser(basename) == Ok(id) {
      var p := if Fits(basename, docker) then docker else cri;
      Reprinted(basename, p);
    }
    if basename == "docker-" + id + ".scope" { ContainerNameIsRead(Docker, id); }
    if basename == "cri-containerd-" + id + ".scope" { ContainerNameIsRead(Containerd, id); }
  }

  lemma ProtocolSplit(protocol: string, hash: string)
    requires ':' !in protocol && !Contains(hash, "://")
    ensures Split(protocol + "://" + hash, "://") == [protocol, hash]
  {
    forall j | 0 <= j < |protocol| ensures !HasPrefix(protocol[j..] + "://" + hash, "://") {
      assert (protocol[j..] + "://" + hash)[0] == protocol[j];
    }
    SplitFirst(protocol, "://", hash);
    SplitAbsent(hash, "://");
  }

  /** The container directory of a protocol and a hash in both drivers, and the ids that are refused. */
  lemma ContainerDirNames(protocol: string, hash: string)
    requires ':' !in protocol && !Contains(hash, "://")
    ensures protocol == "docker" ==> ContainerDir(protocol + "://" + hash) == Ok("docker-" + hash + ".scope/")
    ensures protocol == "containerd" ==>
      ContainerDir(protocol + "://" + hash) == Ok("cri-containerd-" + hash + ".scope/")
    ensures protocol in {"docker", "containerd"} ==> ContainerDirFs(protocol + "://" + hash) == Ok(hash + "/")
    ensures protocol !in {"docker", "containerd"} ==>
      ContainerDir(protocol + "://" + hash) == ContainerDirFs(protocol + "://" + hash) == Err(UnknownProtocol)
    ensures ContainerDir(hash) == ContainerDirFs(hash) == Err(BadContainerId)
  {
    ProtocolSplit(protocol, hash);
    SplitAbsent(hash, "://");
  }

  lemma ContainerDirPrinted(rt: Runtime, hash: string)
    ensures var p := ContainerPattern(rt);
      ContainerDir(Protocol(rt) + "://" + hash) == Ok(p.prefix + Split(hash, "://")[0] + p.suffix + "/")
  {
    ContainerHash(rt, hash);
    assert ".scope" + "/" == ".scope/";
    var p, first := ContainerPattern(rt), Split(hash, "://")[0];
    assert p.prefix + first + p.suffix + "/" == p.prefix + first + (p.suffix + "/");
    assert "docker" != "containerd" by { assert |"docker"| != |"containerd"|; }
  }

  /** Container directories of both runtimes: parsing the printed name, without its trailing slash,
      returns the hash exactly when the hash holds no further "://". */
  lemma ContainerDirRoundTrip(rt: Runtime, hash: string)
    ensures ContainerDir(Protocol(rt) + "://" + hash).Ok?
    ensures var dir := ContainerDir(Protocol(rt) + "://" + hash).value;
      HasSuffix(dir, "/") && (ContainerIdParser(dir[..|dir| - 1]) == Ok(hash) <==> !Contains(hash, "://"))
  {
    ContainerDirPrinted(rt, hash);
    var first, p := Split(hash, "://")[0], ContainerPattern(rt);
    var dir := ContainerDir(Protocol(rt) + "://" + hash).value;
    assert dir[..|dir| - 1] == p.prefix + first + p.suffix;
    ContainerNameIsRead(rt, first);
    FirstSegment(hash, "://");
  }

  /** The first segment is the whole text exactly when the separator does not occur. */
  lemma {:induction false} FirstSegment(s: string, sep: string)
    requires sep != ""
    ensures Split(s, sep)[0] == s <==> !Contains(s, sep)
    ensures |Split(s, sep)[0]| <= |s|
  {
    if s != "" && !HasPrefix(s, sep) {
      FirstSegment(s[1..], sep);
      assert s == [s[0]] + s[1..];
    }
  }

  // ---------- cgroupfs ----------

  function PodDirFs(podUid: string): string {
    "pod" + podUid + "/"
  }

  function ContainerDirFs(id: string): Result<string, CgroupError> {
    var hashId := Split(id, "://");
    if |hashId| < 2 then Err(BadContainerId)
    else if hashId[0] == "docker" || hashId[0] == "containerd" then Ok(hashId[1] + "/")
    else Err(UnknownProtocol)
  }

  function PodIdParserFs(basename: string): Result<string, CgroupError> {
    if HasPrefix(basename, "pod") then Ok(basename[|"pod"|..]) else Err(NoPattern)
  }

  /** The cgroupfs driver keeps UIDs as they are and names container directories by the hash. */
  lemma CgroupfsRoundTrip(podUid: string, rt: Runtime, hash: string)
    ensures var dir := PodDirFs(podUid); PodIdParserFs(dir[..|dir| - 1]) == Ok(podUid)
    ensures ContainerDirFs(Protocol(rt) + "://" + hash) == Ok(hash + "/") <==> !Contains(hash, "://")
  {
    var dir := PodDirFs(podUid);
    assert dir[..|dir| - 1] == "pod" + podUid;
    ContainerHash(rt, hash);
    FirstSegment(hash, "://");
    var first := Split(hash, "://")[0];
    assert first + "/" == hash + "/" ==> (first + "/")[..|first|] == (hash + "/")[..|hash|];
  }

  /** And its pod parser accepts exactly the names that start with pod. */
  lemma PodIdFsExact(basename: string, id: string)
    ensures PodIdParserFs(basename) == Ok(id) <==> basename == "pod" + id
    ensures PodDirFs(id) == "pod" + id + "/"
  {
    assert HasPrefix(basename, "pod") ==> basename == "pod" + basename[3..];
    assert ("pod" + id)[3..] == id;
  }
}
