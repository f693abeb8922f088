/** The node server of the driver (pkg/csi/lvm/nodeserver.go): publish, unpublish and expand, as
    handlers that change the node command by command and leave early. */
module NodeServer {
  import opened GoStrings
  import opened Mounts
  import opened FsProbe
  import opened Sizes
  import opened Host

  // ---------- requests, answers, and what the outside world does ----------

  datatype PublishRequest = PublishRequest(
    volumeId: string, target: string, context: map<string, string>, readonly: bool, mountFlags: seq<string>)

  datatype UnpublishRequest = UnpublishRequest(volumeId: string, target: string)

  /** `hasRange` tells whether the request carries a capacity range. */
  datatype ExpandRequest = ExpandRequest(volumeId: string, target: string, hasRange: bool)

  datatype Code = InvalidArgument | NotFound | Aborted | Internal

  datatype Answer = Success | Failure(code: Code) | Panic

  /** The allocation annotation of a persistent volume: absent, unreadable, or naming a group. */
  datatype Allocation = NoInfo | BadInfo | Info(vgName: string)

  datatype Pv = Pv(capacity: nat, allocation: Allocation, attributes: Option<map<string, string>>)

  datatype StatResult = Present | Absent | Unknown

  /** Everything a handler asks of the outside world during one call. A false flag is a command
      that fails; texts are what commands print, None when they fail. */
  datatype Commands = Commands(
    pv: Option<Pv>,              // the API lookup by createVolume and NodeExpandVolume
    resizePv: Option<Pv>,        // the API lookup by resizeVolume
    statDevice: bool,            // false: os.Stat of the device fails for another reason than absence
    createVg: Option<nat>,       // createVG: the number of PVs of an existing group
    vgck: bool,
    lvcreate: bool,
    directAdd: bool,
    directRemove: bool,
    grep: Command,
    statTarget: StatResult,
    mkdir: bool,
    file: Option<string>,
    blkid: Option<string>,
    mkfs: bool,
    mount: bool,
    lvdisplay: Option<string>,
    lvextend: bool,
    resizefs: bool,
    umount: bool)

  datatype State = State(isDirect: bool, node: Node)

  // ---------- reading the request ----------

  function Lookup(context: map<string, string>, key: string, default: string): string {
    if key in context then context[key] else default
  }

  function VgName(q: PublishRequest): string { Lookup(q.context, "vgName", "") }
  function PvType(q: PublishRequest): string { Lookup(q.context, "pvType", "clouddisk") }
  function LvmType(q: PublishRequest): string { Lookup(q.context, "lvmType", "linear") }
  function FsTypeOf(q: PublishRequest): string { Lookup(q.context, "fsType", "ext4") }

  /** strconv.ParseBool, an unreadable text counting as false. */
  predicate DirectFlag(q: PublishRequest) {
    Lookup(q.context, "direct", "") in {"1", "t", "T", "true", "TRUE", "True"}
  }

  function DeviceOf(q: PublishRequest): Device {
    Device(VgName(q), q.volumeId)
  }

  /** The checks that come before anything is changed. */
  predicate Accepted(q: PublishRequest) {
    q.volumeId != "" && q.target != "" && VgName(q) != ""
  }

  /** GetVGNameFromCsiPV. */
  function VgOfPv(pv: Pv): string {
    if pv.allocation.Info? && pv.allocation.vgName != "" then pv.allocation.vgName
    else if pv.attributes.None? then ""
    else Lookup(pv.attributes.value, "vgName", "")
  }

  /** The bytes getPvInfo asks for; a failed lookup counts as size zero. */
  function RequestedBytes(pv: Option<Pv>): nat {
    if pv.None? then 0 else Bytes(Choose(pv.value.capacity))
  }

  function CapacityOf(pv: Option<Pv>): nat {
    if pv.None? then 0 else pv.value.capacity
  }

  /** The size that resizeVolume reads off lvdisplay's text. */
  function ShownSize(text: string): Option<int> {
    if text == "" then None else Atoi(TrimSpace(Split(text, ".")[0]))
  }

  function MountOptions(q: PublishRequest): seq<string> {
    [if q.readonly then "ro" else "rw"] + q.mountFlags
  }

  // ---------- the handlers as functions of state ----------

  function CreateVolume(n: Node, dev: Device, pvType: string, lvmType: string, c: Commands): Option<Node> {
    if pvType == "localdisk" && c.createVg.None? then None
    else if !c.vgck then None
    else
      var pvNumber := if pvType == "localdisk" then c.createVg.value else 0;
      if lvmType == "striping" then LvCreate(n, dev, RequestedBytes(c.pv), pvNumber, c.lvcreate)
      else if lvmType == "linear" then LvCreate(n, dev, RequestedBytes(c.pv), 1, c.lvcreate)
      else Some(n)
  }

  /** Whether publish takes the device for missing. */
  predicate NeedsCreate(n: Node, dev: Device, c: Commands) {
    c.statDevice && dev !in n.lvs
  }

  /** The node once the device is there, or None when creating it failed. */
  function Provision(n: Node, q: PublishRequest, c: Commands): Option<Node> {
    if NeedsCreate(n, DeviceOf(q), c) then CreateVolume(n, DeviceOf(q), PvType(q), LvmType(q), c) else Some(n)
  }

  datatype Resized = Resized(node: Node, ok: bool)

  function ResizeVolume(n: Node, dev: Device, target: string, c: Commands): Resized {
    if c.lvdisplay.None? || ShownSize(c.lvdisplay.value).None? then Resized(n, false)
    else if ShownSize(c.lvdisplay.value).value >= CapacityOf(c.resizePv) then Resized(n, true)
    else
      match LvExtend(n, dev, RequestedBytes(c.resizePv), c.lvextend)
      case None => Resized(n, false)
      case Some(n1) =>
        match ResizeFs(n1, dev, target, c.resizefs)
        case None => Resized(n1, false)
        case Some(n2) => Resized(n2, true)
  }

  datatype Mountedness = Mounted | NotMounted | CannotTell(answer: Answer)

  /** Step 5 of publish. A check that failed on a target that exists dereferences a nil error. */
  function MountednessForPublish(target: string, c: Commands): Mountedness {
    match IsMounted(target, c.grep)
    case Ok(b) => if b then Mounted else NotMounted
    case Err(_) =>
      match c.statTarget
      case Absent => if c.mkdir then NotMounted else CannotTell(Failure(Internal))
      case Present => CannotTell(Panic)
      case Unknown => CannotTell(Failure(Internal))
  }

  function FormatIfBlank(n: Node, q: PublishRequest, c: Commands): Option<Node> {
    match CheckFsType(c.file, c.blkid)
    case Err(_) => None
    case Ok(t) => if t == "" then MkFs(n, DeviceOf(q), FsTypeOf(q), c.mkfs) else Some(n)
  }

  function MountIfNeeded(n: Node, q: PublishRequest, mounted: bool, c: Commands): Option<Node> {
    if mounted then Some(n) else DoMount(n, DeviceOf(q), q.target, FsTypeOf(q), MountOptions(q), c.mount)
  }

  /** The part of publish that formats, mounts and resizes. */
  function Attach(n: Node, q: PublishRequest, created: bool, c: Commands): (Node, Answer) {
    match MountednessForPublish(q.target, c)
    case CannotTell(answer) => (n, answer)
    case m =>
      match FormatIfBlank(n, q, c)
      case None => (n, Failure(Internal))
      case Some(n1) =>
        match MountIfNeeded(n1, q, m == Mounted, c)
        case None => (n1, Failure(Internal))
        case Some(n2) =>
          if created then (n2, Success)
          else
            var r := ResizeVolume(n2, DeviceOf(q), q.target, c);
            (r.node, if r.ok then Success else Failure(Internal))
  }

  function Publish(s: State, q: PublishRequest, c: Commands): (State, Answer) {
    if !Accepted(q) then (s, Failure(InvalidArgument))
    else
      var direct := DirectFlag(q);
      match Provision(s.node, q, c)
      case None => (State(direct, s.node), Failure(Aborted))
      case Some(n) =>
        if direct then
          if c.directAdd then
            (State(true, n.(direct := n.direct[q.target := DirectVolume(DeviceOf(q), FsTypeOf(q))])), Success)
          else (State(true, n), Failure(Internal))
        else
          var r := Attach(n, q, NeedsCreate(s.node, DeviceOf(q), c), c);
          (State(false, r.0), r.1)
  }

  function DropDirect(n: Node, target: string): Node {
    n.(direct := n.direct - {target})
  }

  function Unpublish(s: State, q: UnpublishRequest, c: Commands): (State, Answer) {
    if q.volumeId == "" then (s, Failure(InvalidArgument))
    else if q.target == "" then (s, Failure(Internal))
    else
      var n := if s.isDirect && c.directRemove then DropDirect(s.node, q.target) else s.node;
      match IsMounted(q.target, c.grep)
      case Err(_) => (s.(node := n), if c.statTarget == Absent then Failure(NotFound) else Failure(Internal))
      case Ok(b) =>
        if !b then (s.(node := n), Success)
        else
          match DoUmount(n, q.target, c.umount)
          case None => (s.(node := n), Failure(Internal))
          case Some(n1) => (s.(node := n1), Success)
  }

  function Expand(s: State, q: ExpandRequest, c: Commands): (State, Answer) {
    if q.volumeId == "" || q.target == "" then (s, Failure(InvalidArgument))
    else if !q.hasRange then (s, Panic)
    else if s.isDirect then (s, Success)
    else if c.pv.None? then (s, Panic)
    else if VgOfPv(c.pv.value) == "" then (s, Failure(Internal))
    else
      var r := ResizeVolume(s.node, Device(VgOfPv(c.pv.value), q.volumeId), q.target, c);
      (s.(node := r.node), if r.ok then Success else Failure(Internal))
  }

  // ---------- the server object ----------

  /** The server and the node it runs on. Each handler is proved to take the step that the function
      of the same name describes. */
  class Server {
    var isDirect: bool
    var node: Node

    constructor (node: Node)
      ensures isDirect == false && this.node == node
    {
      this.isDirect := false;
      this.node := node;
    }

    function View(): State
      reads this
    {
      State(isDirect, node)
    }

    method CreateLv(volumeId: string, vgName: string, pvType: string, lvmType: string, c: Commands) returns (ok: bool)
      modifies this`node
      ensures var r := CreateVolume(old(node), Device(vgName, volumeId), pvType, lvmType, c);
        ok == r.Some? && node == if ok then r.value else old(node)
    {
      var pvSize := RequestedBytes(c.pv);
      var pvNumber := 0;
      if pvType == "localdisk" {
        if c.createVg == None {
          return false;
        }
        pvNumber := c.createVg.value;
      }
      if !c.vgck {
        return false;
      }
      if lvmType == "striping" {
        var done := LvCreate(node, Device(vgName, volumeId), pvSize, pvNumber, c.lvcreate);
        if done == None {
          return false;
        }
        node := done.value;
      } else if lvmType == "linear" {
        var done := LvCreate(node, Device(vgName, volumeId), pvSize, 1, c.lvcreate);
        if done == None {
          return false;
        }
        node := done.value;
      }
      return true;
    }

    method Resize(volumeId: string, vgName: string, target: string, c: Commands) returns (ok: bool)
      modifies this`node
      ensures ResizeVolume(old(node), Device(vgName, volumeId), target, c) == Resized(node, ok)
    {
      var pvSizeByte := CapacityOf(c.resizePv);
      if c.lvdisplay == None {
        return false;
      }
      var size := ShownSize(c.lvdisplay.value);
      if size == None {
        return false;
      }
      if size.value >= pvSizeByte {
        return true;
      }
      var extended := LvExtend(node, Device(vgName, volumeId), RequestedBytes(c.resizePv), c.lvextend);
      if extended == None {
        return false;
      }
      node := extended.value;
      var grown := ResizeFs(node, Device(vgName, volumeId), target, c.resizefs);
      if grown == None {
        return false;
      }
      node := grown.value;
      return true;
    }

    method NodePublishVolume(q: PublishRequest, c: Commands) returns (answer: Answer)
      modifies this
      ensures (View(), answer) == Publish(old(View()), q, c)
    {
      if q.volumeId == "" {
        return Failure(InvalidArgument);
      }
      if q.target == "" {
        return Failure(InvalidArgument);
      }
      var vgName := "";
      if "vgName" in q.context {
        vgName := q.context["vgName"];
      }
      if vgName == "" {
        return Failure(InvalidArgument);
      }
      isDirect := DirectFlag(q);
      var device := Device(vgName, q.volumeId);
      var newlyCreated := false;
      if c.statDevice && device !in node.lvs {
        newlyCreated := true;
        var ok := CreateLv(q.volumeId, vgName, PvType(q), LvmType(q), c);
        if !ok {
          return Failure(Aborted);
        }
      }
      if isDirect {
        if !c.directAdd {
          return Failure(Internal);
        }
        node := node.(direct := node.direct[q.target := DirectVolume(device, FsTypeOf(q))]);
        return Success;
      }
      answer := AttachVolume(q, newlyCreated, c);
    }

    /** Steps 5 onwards of NodePublishVolume: format if blank, mount if needed, resize if old. */
    method AttachVolume(q: PublishRequest, newlyCreated: bool, c: Commands) returns (answer: Answer)
      modifies this`node
      ensures (node, answer) == Attach(old(node), q, newlyCreated, c)
    {
      var device := DeviceOf(q);
      var isMnt := false;
      var check := IsMounted(q.target, c.grep);
      match check {
        case Ok(b) => isMnt := b;
        case Err(_) =>
          if c.statTarget == Absent {
            if !c.mkdir {
              return Failure(Internal);
            }
          } else {
            return if c.statTarget == Present then Panic else Failure(Internal);
          }
      }
      var fstype := ProbeDevice(c.file, c.blkid);
      if fstype.Err? {
        return Failure(Internal);
      }
      if fstype.value == "" {
        var formatted := MkFs(node, device, FsTypeOf(q), c.mkfs);
        if formatted == None {
          return Failure(Internal);
        }
        node := formatted.value;
      }
      if !isMnt {
        var mounted := DoMount(node, device, q.target, FsTypeOf(q), MountOptions(q), c.mount);
        if mounted == None {
          return Failure(Internal);
        }
        node := mounted.value;
      }
      if !newlyCreated {
        var ok := Resize(q.volumeId, VgName(q), q.target, c);
        if !ok {
          return Failure(Internal);
        }
      }
      return Success;
    }

    method NodeUnpublishVolume(q: UnpublishRequest, c: Commands) returns (answer: Answer)
      modifies this`node
      ensures (View(), answer) == Unpublish(old(View()), q, c)
    {
      if q.volumeId == "" {
        return Failure(InvalidArgument);
      }
      if q.target == "" {
        return Failure(Internal);
      }
      if isDirect {
        if c.directRemove {
          node := node.(direct := node.direct - {q.target});
        }
      }
      var isMnt := IsMounted(q.target, c.grep);
      if isMnt.Err? {
        if c.statTarget == Absent {
          return Failure(NotFound);
        }
        return Failure(Internal);
      }
      if !isMnt.value {
        return Success;
      }
      var unmounted := DoUmount(node, q.target, c.umount);
      if unmounted == None {
        return Failure(Internal);
      }
      node := unmounted.value;
      return Success;
    }

    method NodeExpandVolume(q: ExpandRequest, c: Commands) returns (answer: Answer)
      modifies this`node
      ensures (View(), answer) == Expand(old(View()), q, c)
    {
      if q.volumeId == "" {
        return Failure(InvalidArgument);
      }
      if q.target == "" {
        return Failure(InvalidArgument);
      }
      if !q.hasRange {
        return Panic;
      }
      if !isDirect {
        if c.pv == None {
          return Panic;
        }
        var vgName := VgOfPv(c.pv.value);
        if vgName == "" {
          return Failure(Internal);
        }
        var ok := Resize(q.volumeId, vgName, q.target, c);
        if !ok {
          return Failure(Internal);
        }
      }
      return Success;
    }
  }
}
