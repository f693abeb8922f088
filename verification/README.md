# kata-local-csi-driver: a verified model

A Dafny model of the node side of kata-local-csi-driver, a CSI driver that makes LVM volumes and
either mounts them or hands them to Kata as direct-assigned volumes. The model follows the decisions
of the driver command by command; what the commands themselves do (LVM, mkfs, mount, grep, the
Kubernetes API) is an input of every call.

`dafny verify dfyconfig.toml` checks everything.

## How it is laid out

| file | what it holds |
|---|---|
| `GoStrings.dfy` | the Go text operations that the parsers are made of, with their laws |
| `Mounts.dfy` | the mount-table parser, its printer, the table search, grep and `IsMounted` |
| `FsProbe.dfy` | `checkFSType`: what `file` and `blkid` print, and what is made of it |
| `Sizes.dfy` | the Gi/Mi arithmetic of `getPvInfo` against LVM's rounding |
| `Host.dfy` | the node: volumes, filesystems, mount table, direct-volume table, and the commands on them |
| `NodeServer.dfy` | publish, unpublish and expand: step functions, and the server object proved to take those steps |
| `Runs.dfy` | all runs of calls and restarts: no data is lost, filesystems fill their volumes |
| `Retry.dfy` | repeated and retried calls, and the sizes that success leaves behind |
| `MountRuns.dfy` | the mount table over all runs, and what success of publish and unpublish means |
| `Requests.dfy` | what the handlers make of the raw fields of a request, and every answer they give |
| `DirectRuns.dfy` | the `isDirect` field over all runs |
| `Examples.dfy` | families of runs that end where the driver goes wrong |
| `LvmErrors.dfy` | cleaning and classifying LVM's error texts |
| `Cgroup.dfy` | cgroup directory names and their parsers |
| `Orphans.dfy`, `References.dfy`, `LogRepair.dfy` | the repairs driven by the system log |
| `NodeAddress.dfy`, `SchedulerMap.dfy`, `InFlight.dfy` | the small shared objects |

## What is assumed about the outside world

- A handler call is atomic, and a command that fails changes nothing.
- `vgName` and `volumeID` are single path components, so `filepath.Join("/dev/", vgName, volumeID)`
  is plain concatenation. A device is identified by the pair of names.
- `lvcreate` and `lvextend` round up to whole extents (one per stripe). `lvcreate` refuses size zero,
  zero stripes, an unknown group and an existing name. `lvextend -L` refuses a target that, once
  rounded, is not above the current size.
- `mkfs` fills the device. `mount -t` needs a filesystem of that type. `ResizeFS` grows ext
  filesystems by device and xfs and btrfs by mount path, as the vendored resizer does.
- The mount table shows the device and the resolved path of the target (symlinks followed, slashes
  cleaned), with blank, tab, newline and backslash in octal. `mount`, `umount` and `ResizeFS` work on the
  resolved path. `Node.links` holds the targets that differ from it; it does not change during a run.
- `os.Stat` reports a device absent only if the volume does not exist: volumes stay active.
- *Honest* commands, where a statement asks for them (each run statement names which of the three
  kinds of report it trusts: probes, mount table, sizes): `file` prints `data` exactly for an existing
  device without a filesystem; a type that `blkid` names is the real one; `grep` runs normally or
  fails with a message; a path that `Stat` calls absent is not mounted; a size that `lvdisplay` shows
  is the real one.
- *Plain* targets, where a statement asks for them: texts in which a dot is the only special
  character for grep, that are not taken for an option, that the kernel shows unescaped, and that are
  their own resolved path. *Literal* targets need only the first two.

## Findings

Properties that the code does not have are stated with the exact condition under which it has them,
and with a run in which it fails:

- A repeated publish succeeds only if the extent-rounded volume reaches the capacity
  (`Retry.RepeatedPublish`, `Retry.RetryAfterCreate`). On extents that divide a Gi, a volume of one Gi
  or more that is not a whole number of Gi cannot be published again (`Examples.RepeatSucceedsIffWholeGi`).
  Once its first mount failed, no publish of it succeeds after any run in which the lookups find its
  capacity (`Examples.OneFailedMountIsFinal`, `Retry.ShortIsNeverPublished`); a lookup that fails lets
  it through (`Examples.FailedLookupRescues`).
- A repeated expand fails in the same way (`Retry.RepeatedExpand`, `Retry.RepeatedExpandIffWholeGi`,
  `Examples.RepeatedExpandFails`).
- A ResizeFS failure is forgotten: the retry reports success, and the filesystem stays small for as long
  as the lookups find the same capacity (`Examples.ForgottenResize`, `Examples.ForgottenResizeIsFinal`,
  `Retry.RunStale`); a larger capacity makes up for it (`Retry.ExpandFillsIff`, `Retry.PublishFillsIff`).
  Over runs that, and an xfs or btrfs resize that
  meets another volume's mount (`Runs.ForeignMountIsGrown`, `Examples.SecondVolumeStaysSmall`), are exactly what makes a filesystem
  smaller than its volume (`Runs.FilesystemsStayFull`).
- A target that is a substring of another mount's line is reported published without being mounted
  (`MountRuns.PublishMountList`, `Examples.PrefixTargetsCollide`), and cannot be unpublished
  (`MountRuns.UnpublishSucceedsIff`); if it is mounted itself, its unpublish works once and cannot be
  repeated (`MountRuns.RepeatedUnpublish`).
- A target that the mount table does not show as it is gains a mount with every publish, and unpublish
  reports success without unmounting it (`MountRuns.SingleMountsIff`): a target below a symlink or with a
  slash at its end (`MountRuns.HiddenTargetsPileUp`, `MountRuns.HiddenTargetsStayMounted`,
  `MountRuns.SlashIsHidden`, `Examples.HiddenTargetIsMountedTwice`), and one with a tab
  (`MountRuns.EscapedTargetsPileUp`, `MountRuns.EscapedTargetsStayMounted`). A grep that fails silently
  does the same (`MountRuns.SilentGrepFailureMountsAgain`).
- `isDirect` belongs to the last call, not to the volume: mixed volumes or a restart leak direct
  entries (`DirectRuns.LastFlagDecidesClearing`, `DirectRuns.MixedFlagsLeak`, `DirectRuns.RestartLeaks`),
  and as long as the last accepted publish was direct, expanding any volume reports success and does
  nothing (`DirectRuns.ExpandCoversIff`, `DirectRuns.FlaggedExpandDoesNothing`).
- A node address that was looked up once is answered for good, whatever becomes of the node
  (`NodeAddress.AnswersAreKept`).
- A publish whose mount check fails on a target that exists panics (`Requests.PublishPanicsIff`), and so
  does an expand without a capacity range or whose volume lookup fails (`Requests.ExpandAnswers`).
- A striped volume that is not on local disks is never created (`Requests.CreatesAsAsked`).
- A named and removable block link in use is removed exactly when its grep fails or prints nothing
  (`References.LinkInUseIsRemovedIff`).
- Two different claims share a scheduler entry exactly when one namespace runs on into the other's name
  (`SchedulerMap.KeyCollision`).

## Model

| member | source | states |
|---|---|---|
| Runs.DataSafety | pkg/csi/lvm/nodeserver.go:136-391 | in every run of publish, unpublish, expand and restart with arbitrary failures and honest probes of the device, a device with a filesystem is never formatted again (same mkfs run, same type), no volume disappears or shrinks, no filesystem outgrows its volume |
| Runs.PublishKeeps | pkg/csi/lvm/nodeserver.go:136-252 | one publish keeps volumes, filesystems and their identity, however it ends |
| Runs.UnpublishKeeps | pkg/csi/lvm/nodeserver.go:254-290 | one unpublish keeps volumes and filesystems |
| Runs.ExpandKeeps | pkg/csi/lvm/nodeserver.go:305-333 | one expand keeps volumes and filesystems and their identity |
| Runs.FormatKeeps | pkg/csi/lvm/nodeserver.go:216-225 | with honest probes mkfs runs exactly on devices without a filesystem |
| Runs.FormatsOnlyBlank | pkg/csi/lvm/nodeserver.go:216-225 | whatever the commands print, a publish runs mkfs at most once and only after `file` said data or blkid gave an empty type |
| Runs.FilesystemsStayFull | pkg/csi/lvm/nodeserver.go:347-391 | in every run every filesystem is as large as its volume after every step, if and only if no ResizeFS call that is made for a filesystem fails and none that works through the mount path meets another volume's mount |
| Runs.OwnersResizeOwn | pkg/csi/lvm/nodeserver.go:347-391 | when each target belongs to one volume, no resize of any run meets another volume's mount |
| Runs.ByDeviceResizesOwn | pkg/csi/lvm/nodeserver.go:347-391 | without xfs and btrfs no resize of any run can grow another volume's filesystem, whoever uses which target |
| Runs.ForeignMountIsGrown | pkg/csi/exec.go:62-65 | an xfs or btrfs expand through a target where another volume is mounted succeeds and leaves the expanded volume's own filesystem as it was, smaller than its volume |
| Retry.RepeatedPublish | pkg/csi/lvm/nodeserver.go:136-252 | idempotence, exactly: repeating a successful mounting publish with nothing failing leaves the whole state unchanged and succeeds if and only if the extent-rounded volume reaches the capacity |
| Retry.RetryAfterCreate | pkg/csi/lvm/nodeserver.go:181-252 | after a publish that created the volume and then ended anyhow, a retry during which nothing fails succeeds if and only if what LVM allocated reaches the capacity |
| Retry.RetrySucceedsIffWholeGi | pkg/csi/lvm/nodeserver.go:393-409 | on chunks that divide a Gi that retry succeeds exactly for whole Gi |
| Retry.RetryOfWholeUnitsSucceeds | pkg/csi/lvm/nodeserver.go:393-409 | on any extents such a retry succeeds for whole Gi, and for whole Mi below one Gi |
| Retry.RunShort | pkg/csi/lvm/nodeserver.go:347-391 | a volume that lvextend refuses to grow and that is below its capacity stays so in every run with true sizes whose lookups for it find that capacity, whatever else fails |
| Retry.ShortIsNeverPublished | pkg/csi/lvm/nodeserver.go:181-252 | after every such run no mounting publish of that volume succeeds |
| Retry.FailedLookupPublishes | pkg/csi/lvm/nodeserver.go:347-367 | the exception: when only the lookup of the capacity fails it counts as zero, and the publish succeeds and mounts, whatever the size of the volume |
| Retry.PublishSettles | pkg/csi/lvm/nodeserver.go:181-252 | a successful mounting publish leaves the device formatted, the target seen in the table, and the volume settled for the capacity |
| Retry.SmoothOnSettled | pkg/csi/lvm/nodeserver.go:203-252 | on a settled volume a publish without failures succeeds exactly when the volume reaches the capacity |
| Retry.RepeatedExpand | pkg/csi/lvm/nodeserver.go:305-391 | idempotence, exactly: repeating a successful expand with a true size shown leaves the whole state unchanged, and succeeds if and only if the extent-rounded volume reaches the capacity |
| Retry.RepeatedExpandIffWholeGi | pkg/csi/lvm/nodeserver.go:364-409 | on chunks that divide a Gi, the repeat of an expand that grew the volume succeeds exactly for whole Gi |
| Retry.ExpandFillsIff | pkg/csi/lvm/nodeserver.go:347-391 | a successful expand leaves the filesystem as large as its volume if and only if it already was or the volume was below the capacity |
| Retry.PublishFillsIff | pkg/csi/lvm/nodeserver.go:203-252 | a successful mounting publish leaves the filesystem as large as its volume if and only if there was none, it already was, or the volume was below the capacity |
| Retry.StaleAfterRetry | pkg/csi/lvm/nodeserver.go:364-391 | after an lvextend that covers the capacity and a failed ResizeFS, the retry succeeds, changes nothing, and the filesystem is smaller than its volume |
| Retry.RunStale | pkg/csi/lvm/nodeserver.go:347-391 | a filesystem smaller than a volume that reaches the capacity stays so in every run with true probes and sizes whose lookups for it find that capacity and whose resizes meet no other volume's mount, whatever else fails |
| Retry.StaleIsNeverGrown | pkg/csi/lvm/nodeserver.go:364-367 | after every such run an expand of the volume at that capacity changes nothing |
| Retry.AcknowledgedSizes | pkg/csi/lvm/nodeserver.go:347-449 | at every point of every run each volume is at least the size asked for at every capacity ever acknowledged for it, and more than half that capacity from one Mi on |
| Retry.ResizeCovers | pkg/csi/lvm/nodeserver.go:347-391 | a successful resize leaves at least the size asked for |
| Retry.PublishCovers | pkg/csi/lvm/nodeserver.go:181-252 | a successful create of a known LVM type, or a successful resize by publish, leaves at least the size asked for |
| Sizes.ChooseBounds | pkg/csi/lvm/nodeserver.go:393-409 | size and unit never exceed the capacity, fall short by less than a unit, and from one Mi on give size at least one and more than half the capacity |
| Sizes.ChooseExact | pkg/csi/lvm/nodeserver.go:393-409 | nothing is cut off exactly for whole Gi, and whole Mi below one Gi |
| Sizes.ReachesIffWhole | pkg/csi/lvm/nodeserver.go:364-376 | on chunks that divide a Gi, LVM's rounding makes up for the cut exactly when nothing was cut |
| MountRuns.NeverMountedTwice | pkg/csi/lvm/nodeserver.go:203-242 | in every run over plain targets no mount point is ever mounted twice |
| MountRuns.SingleMountsIff | pkg/csi/lvm/nodeserver.go:203-242 | in every run over literal targets, escaped and symlinked ones included, no mount point is ever mounted twice if and only if no publish gets to mounting a mounted target that no line of the table holds |
| MountRuns.PublishSingleIff | pkg/csi/lvm/nodeserver.go:203-242 | the same for one publish |
| MountRuns.PublishMountList | pkg/csi/lvm/nodeserver.go:203-242 | a successful mounting publish adds one mount if no line of the table holds the target as a substring, and none otherwise |
| MountRuns.PublishMountsOwnDevice | pkg/csi/lvm/nodeserver.go:203-242 | for a target that no other mount's line holds, success means mounted exactly once from /dev/vg/volume, with every other mount untouched |
| MountRuns.UnpublishExact | pkg/csi/lvm/nodeserver.go:273-289 | a successful unpublish removes exactly the target's mount and keeps volumes and data |
| MountRuns.UnpublishSucceedsIff | pkg/csi/lvm/nodeserver.go:273-289 | with normal commands unpublish succeeds if and only if the target is mounted or held by no line |
| MountRuns.PublishThenUnpublish | pkg/csi/lvm/nodeserver.go:136-290 | after any run, publish then unpublish of an isolated target mounts it from its own device and restores the table without it |
| MountRuns.RepeatedUnpublish | pkg/csi/lvm/nodeserver.go:273-289 | idempotence, exactly: repeating a successful unpublish leaves the mounts as they are, and succeeds if and only if no line of another mount holds the target |
| MountRuns.HiddenIsNeverSeen | pkg/utils/mounter.go:301-320 | over every run, a target that no line holds and that no new mount's line holds is never seen, however often it is mounted |
| MountRuns.HiddenTargetsPileUp | pkg/csi/lvm/nodeserver.go:203-242 | after every such run a successful publish of the target adds another mount of its resolved path |
| MountRuns.HiddenTargetsStayMounted | pkg/csi/lvm/nodeserver.go:273-289 | and every unpublish of it reports success and removes no mount |
| MountRuns.HiddenIff | pkg/utils/mounter.go:407-411 | a plain text is hidden by its own mount exactly when no field of its line holds it, and then only if its resolved path is another one |
| MountRuns.SlashIsHidden | pkg/utils/mounter.go:407-411 | a slash at the end of a target hides it, unless the device or the options hold the text |
| MountRuns.EscapedTargetsPileUp | pkg/csi/lvm/nodeserver.go:203-242 | a target with a tab gains a mount with every successful publish |
| MountRuns.EscapedTargetsStayMounted | pkg/csi/lvm/nodeserver.go:273-289 | and every unpublish of it reports success and removes no mount |
| MountRuns.SilentGrepFailureMountsAgain | pkg/utils/mounter.go:309-312 | a grep failure without output counts as not mounted and adds a mount |
| DirectRuns.IsDirectIsLastFlag | pkg/csi/lvm/nodeserver.go:171-179 | in every run isDirect is the parsed flag of the last publish that passed its checks, or false after a restart |
| DirectRuns.SharedFlagNeverLeaks | pkg/csi/lvm/nodeserver.go:268-272 | in every run without restarts in which all volumes share one flag, an unpublish whose removal succeeds clears its direct entry |
| DirectRuns.UnpublishClearsIff | pkg/csi/lvm/nodeserver.go:268-272 | the entry is gone afterwards if and only if isDirect was set or there was none; other entries stay |
| DirectRuns.LastFlagDecidesClearing | pkg/csi/lvm/nodeserver.go:268-272 | after every run an unpublish clears its entry if and only if the last accepted publish, of whichever volume, was direct, or there was none |
| DirectRuns.MixedFlagsLeak | pkg/csi/lvm/nodeserver.go:171-201 | a direct publish followed by any accepted mounting publish leaves the entry behind on unpublish, which can report success |
| DirectRuns.RestartLeaks | pkg/csi/lvm/nodeserver.go:99-107 | so does a restart |
| DirectRuns.FlaggedExpandDoesNothing | pkg/csi/lvm/nodeserver.go:318-332 | after every run whose last accepted publish was direct, expanding any volume reports success and changes nothing |
| DirectRuns.ExpandCoversIff | pkg/csi/lvm/nodeserver.go:318-332 | after every run a successful expand leaves the volume as large as asked for if and only if the last accepted publish was not direct or the volume was that large before |
| DirectRuns.DirectDeviceExistsIff | pkg/csi/lvm/nodeserver.go:181-201 | a successful direct publish names a device that exists exactly when it did before or its LVM type is known |
| Examples.PrefixTargetsCollide | pkg/csi/lvm/nodeserver.go:203-242 | for every two new volumes with one target a proper prefix of the other, two successful publishes leave the shorter target unmounted |
| Examples.PrefixTargetCannotBeUnpublished | pkg/csi/lvm/nodeserver.go:273-287 | and unpublishing the shorter target fails |
| Examples.ForgottenResize | pkg/csi/lvm/nodeserver.go:364-391 | for every new volume and every larger whole-Gi capacity: publish, an expand whose ResizeFS fails, and a clean retry that reports success end with the filesystem smaller than its volume |
| Examples.ForgottenResizeIsFinal | pkg/csi/lvm/nodeserver.go:364-391 | and after that failed expand the filesystem stays smaller in every run whose lookups find the same capacity and whose resizes meet no other volume's mount |
| Examples.RepeatedExpandFails | pkg/csi/lvm/nodeserver.go:364-409 | for every volume that grows by device and every capacity from one Gi that is not whole and makes it grow, the expand succeeds and the same expand again fails and changes nothing |
| Examples.SecondVolumeStaysSmall | pkg/csi/lvm/nodeserver.go:203-252 | for every two new xfs or btrfs volumes published at one target, expanding the second reports success and leaves its filesystem smaller than its volume |
| Examples.HiddenTargetIsMountedTwice | pkg/csi/lvm/nodeserver.go:203-289 | for every new volume whose line does not hold the text of its target, publishing twice mounts it twice, and unpublish then reports success and removes no mount |
| Examples.CleanRetrySucceedsIffWholeGi | pkg/csi/lvm/nodeserver.go:181-252 | for every new volume of at least one Gi, one failed mount and then a retry during which nothing fails end in success exactly for whole Gi |
| Examples.OneFailedMountIsFinal | pkg/csi/lvm/nodeserver.go:181-252 | for every other capacity, after that failed mount and every run in which the lookups find the capacity, no mounting publish of the volume succeeds |
| Examples.FailedLookupRescues | pkg/csi/lvm/nodeserver.go:347-367 | the exception, for every capacity: a retry in which only that lookup fails succeeds and the target is seen mounted |
| Examples.RepeatSucceedsIffWholeGi | pkg/csi/lvm/nodeserver.go:136-252 | for every new volume of at least one Gi, publish and repeat without failures leave the same state, and the repeat succeeds exactly for whole Gi |
| Examples.SampleIsLarge | pkg/csi/lvm/nodeserver.go:393-409 | on 4Mi extents the previous four statements apply to every capacity from one Gi, one and a half Gi included |
| Examples.FreshPublish | pkg/csi/lvm/nodeserver.go:136-252 | what a publish of a new volume leaves when nothing fails |
| NodeServer.Server.NodePublishVolume | pkg/csi/lvm/nodeserver.go:136-252 | the handler takes exactly the publish step: new node, new isDirect and answer |
| NodeServer.Server.AttachVolume | pkg/csi/lvm/nodeserver.go:203-252 | the formatting, mounting and resizing part of publish |
| NodeServer.Server.NodeUnpublishVolume | pkg/csi/lvm/nodeserver.go:254-290 | the handler takes exactly the unpublish step and leaves isDirect alone |
| NodeServer.Server.NodeExpandVolume | pkg/csi/lvm/nodeserver.go:305-333 | the handler takes exactly the expand step, panics included |
| NodeServer.Server.Resize | pkg/csi/lvm/nodeserver.go:347-391 | resizeVolume: new node and outcome |
| NodeServer.Server.CreateLv | pkg/csi/lvm/nodeserver.go:412-449 | createVolume: new node and outcome, unknown LVM types included |
| NodeServer.Server.constructor | pkg/csi/lvm/nodeserver.go:88-108 | a new server has isDirect false |
| Requests.RefusedIff | pkg/csi/lvm/nodeserver.go:140-155 | a publish answers InvalidArgument exactly when its ID, target or group is missing or empty, and then changes nothing |
| Requests.FieldIsAsked | pkg/csi/lvm/nodeserver.go:171-179 | any other publish leaves isDirect true exactly when the context's direct key holds one of the six texts that count as true |
| Requests.CreatesAsAsked | pkg/csi/lvm/nodeserver.go:181-190 | publishing a volume that does not exist answers Aborted if and only if the group cannot be made or checked or lvcreate refuses, with no change; otherwise a linear volume has one-extent chunks, a striped one an extent per PV of its local-disk group, both just large enough for what is asked for, and an unknown type makes none |
| Requests.ExistingIsNotCreated | pkg/csi/lvm/nodeserver.go:181-190 | a volume that exists, or whose device cannot be looked at, is not created |
| Requests.PublishPanicsIff | pkg/csi/lvm/nodeserver.go:203-214 | a mounting publish panics exactly when grep fails with a message on a target that exists; when the target cannot be looked at or made it fails; either way nothing is formatted or mounted |
| Requests.DirectEntryIsAsked | pkg/csi/lvm/nodeserver.go:192-201 | a direct publish records /dev/group/volume and the type asked for, ext4 by default, if the entry can be added, and formats and mounts nothing |
| Requests.MountsAsAsked | pkg/csi/lvm/nodeserver.go:227-242 | the mount that a successful publish adds: the last one, from /dev/group/volume, at the resolved target, of the type asked for, ro exactly for read-only requests and rw otherwise, followed by the request's flags |
| Requests.FormatsAsAsked | pkg/csi/lvm/nodeserver.go:216-225 | a blank device ends up with the filesystem asked for, made in this call |
| Requests.OtherTypeIsNotMounted | pkg/csi/lvm/nodeserver.go:216-242 | a device with another filesystem than the one asked for is neither formatted nor mounted at an unseen target, and the publish fails |
| Requests.SizeIsRead | pkg/csi/lvm/nodeserver.go:351-362 | lvdisplay's text is read as its number, with white space around it or with a fraction |
| Requests.NoSizeFails | pkg/csi/lvm/nodeserver.go:351-362 | when lvdisplay fails or prints only white space the resize fails and changes nothing |
| Requests.ExpandsNamedVolume | pkg/utils/util.go:672-692 | expand works on the volume of the group in the allocation annotation, or without a usable one in the vgName attribute, and on no other volume |
| Requests.ExpandGrowsNamedVolume | pkg/csi/lvm/nodeserver.go:347-376 | that volume grows to just what is asked for when the printed size, newline and all, is below the capacity and lvextend can reach more |
| Requests.ExpandWithoutGroup | pkg/csi/lvm/nodeserver.go:321-327 | a persistent volume that names no group makes expand answer Internal and change nothing |
| Requests.LargeEnoughIsLeft | pkg/csi/lvm/nodeserver.go:364-367 | when the printed size, newline and all, reaches the capacity, expand succeeds and changes nothing |
| Requests.ExpandAnswers | pkg/csi/lvm/nodeserver.go:305-333 | exactly when expand answers InvalidArgument and when it panics, and that it then changes nothing |
| Requests.UnpublishAnswers | pkg/csi/lvm/nodeserver.go:254-290 | exactly when unpublish answers Success, InvalidArgument and NotFound; Internal in every other case |
| Host.MountCheckExact | pkg/utils/mounter.go:301-320 | against the node's own table the check answers whether some mount's line holds the target |
| Host.MountedIsSeen | pkg/utils/mounter.go:301-320 | a mounted plain target is always seen |
| Host.EscapedIsNeverSeen | pkg/utils/mounter.go:301-320 | a target with a tab is never seen |
| Host.LineHoldsIff | pkg/utils/mounter.go:301-320 | a line holds a target exactly when one of its fields does |
| Host.ParsedTableIsExact | pkg/utils/mounter.go:407-433 | the loop over the parsed table, which searches for the resolved path, finds a target exactly when it is mounted or shown deleted |
| Host.ResizeFsByType | vendor/k8s.io/mount-utils/resizefs_linux.go:41-70 | ext3 and ext4 are grown through the device, xfs and btrfs through what is mounted at the target, and nothing else is |
| GoStrings.AtoiSigned | pkg/utils/mounter.go:460-472 | the numbers of a line: a plus sign is allowed, digits are needed, and nothing else is allowed |
| GoStrings.SpaceInLatin1 | pkg/csi/lvm/util.go:76-90 | the white space that trimming removes, among the first 256 characters |
| Mounts.ParseProcMounts | pkg/utils/mounter.go:444-480 | the parser's loop computes the table of the text, or the first error |
| Mounts.ParsePrint | pkg/utils/mounter.go:444-480 | printing well-formed mount points one per line and parsing gives them back |
| Mounts.ParsePrintParse | pkg/utils/mounter.go:444-480 | parse-print-parse equals parse on every text that parses |
| Mounts.ParseAppend | pkg/utils/mounter.go:446-479 | parsing two texts joined by a newline concatenates their results, the first failure deciding |
| Mounts.ParsesIffEveryLineParses | pkg/utils/mounter.go:447-475 | one bad non-empty line fails the whole parse, and nothing else does |
| Mounts.LineParsesIff | pkg/utils/mounter.go:448-475 | a line of blank-separated words parses exactly when it has six of which the last two are numbers, to those six; otherwise the error names the count or the first bad number |
| Mounts.UnescapeEscape | vendor/github.com/moby/sys/mountinfo/mountinfo_linux.go:158-208 | reading backslash and three octal digits back undoes the table's escapes on every text |
| Mounts.IsNotMountPoint | pkg/utils/mounter.go:389-426 | the answer in each case: device numbers, permission error, symlink error, table error, table search |
| Mounts.IsMountedExact | pkg/utils/mounter.go:301-320 | on every table text, for literal targets and grep running normally: true exactly when some line holds the target as a substring |
| Mounts.ParsedMatchIsMounted | pkg/utils/mounter.go:413-433 | whatever the parsed-table loop finds, deleted directories included, the grep-based check finds |
| FsProbe.ProbeDevice | pkg/csi/lvm/util.go:69-99 | checkFSType's commands and loop compute the probe |
| FsProbe.BlkidExact | pkg/csi/lvm/util.go:88-98 | the loop returns t exactly when the first line that is malformed or has the key TYPE is TYPE=t with one '='; otherwise a parse error |
| FsProbe.BlankOnlyWhenSaid | pkg/csi/lvm/util.go:76-98 | a device counts as blank exactly when `file` said data or blkid gave an empty type |
| FsProbe.TypeOnlyWhenSaid | pkg/csi/lvm/util.go:69-99 | a type is returned exactly when `file` printed something other than data and blkid says that type, and a command failure exactly when a command that is run fails |
| FsProbe.ClassifyExact | pkg/csi/lvm/util.go:90-96 | the three kinds of line, without cutting them up |
| LvmErrors.IgnoreWarnings | pkg/csi/lvm/vg.go:730-751 | the loop computes the cleaned text |
| LvmErrors.CleanErrorIsCore | pkg/csi/lvm/vg.go:730-751 | for every text: the trimmed lines that are not noise, in order, without the blank lines at both ends |
| LvmErrors.KeptIff | pkg/csi/lvm/vg.go:730-751 | a line that is not blank is in the cleaned text exactly when it is a trimmed raw line that starts neither with WARNING nor with File descriptor |
| LvmErrors.SplitCleanError | pkg/csi/lvm/vg.go:730-751 | splitting the cleaned text gives those lines back, all trimmed and free of noise |
| LvmErrors.CleanErrorIdempotent | pkg/csi/lvm/vg.go:730-751 | cleaning is idempotent on every text |
| LvmErrors.ClassifiersSeeRawLines | pkg/csi/lvm/vg.go:254-266 | each classifier on the cleaned text is true exactly when some trimmed raw line matches its test |
| LvmErrors.IsLogicalVolumeNotFound | pkg/csi/lvm/vg.go:254-266 | true exactly when some line starts with "Failed to find logical volume" |
| LvmErrors.IsPhysicalVolumeNotFound | pkg/csi/lvm/vg.go:318-349 | true exactly when some line starts with "Failed to find device" or "No physical volume label read from" |
| LvmErrors.IsVolumeGroupNotFound | pkg/csi/lvm/vg.go:351-364 | true exactly when some line starts with "Volume group" and says "not found" |
| Cgroup.PodDirRoundTrip | pkg/utils/cgroup_driver.go:71-124 | parsing a printed pod directory returns the UID with dashes as underscores, for all three classes |
| Cgroup.PodIdExact | pkg/utils/cgroup_driver.go:98-124 | the pod parser accepts exactly the three printed forms |
| Cgroup.PodDirNames | pkg/utils/cgroup_driver.go:71-82 | the name of each class, with the UID's dashes as underscores, and the root for an unknown class |
| Cgroup.PodIdNames | pkg/utils/cgroup_driver.go:98-124 | the pod parser accepts exactly those three names |
| Cgroup.PodDirCollision | pkg/utils/cgroup_driver.go:71-82 | two pods share a directory exactly when they share class and UID up to dashes and underscores |
| Cgroup.PodDirInjective | pkg/utils/cgroup_driver.go:71-82 | on UIDs without underscores the directory determines class and UID |
| Cgroup.UnderscoreCollision | pkg/utils/cgroup_driver.go:71-82 | with underscores two UIDs can share a directory |
| Cgroup.FitsBounds | pkg/utils/cgroup_driver.go:118-144 | the slice bounds of both parsers are valid on every input, since prefix and suffix cannot overlap |
| Cgroup.ContainerDirRoundTrip | pkg/utils/cgroup_driver.go:83-146 | container directories give the hash back exactly when it holds no further "://" |
| Cgroup.ContainerDirNames | pkg/utils/cgroup_driver.go:83-97 | the directory of each protocol in both drivers, and the two errors for other protocols and for ids without "://" |
| Cgroup.ContainerIdExact | pkg/utils/cgroup_driver.go:125-146 | the container parser accepts exactly the names of the two runtimes |
| Cgroup.CgroupfsRoundTrip | pkg/utils/cgroup_driver.go:162-184 | the same for the cgroupfs driver |
| Cgroup.PodIdFsExact | pkg/utils/cgroup_driver.go:162-184 | the cgroupfs pod parser accepts exactly the names that start with pod |
| Orphans.CleanVolumesPassed | pkg/om/orphaned.go:73-101 | one pass, whatever is listed and fails: a volume that is not listed or whose mount cannot be cleaned stays as it is; otherwise its mount goes, its directory goes if and only if it held nothing else, its JSON file could be removed and so could it, and if it stays it keeps its other files, and its JSON file exactly when that could not be removed |
| Orphans.LineTreats | pkg/om/orphaned.go:41-103 | one line changes a volume only if it names the pod, the pod is not yet fixed and the volume is listed, and then as a pass does |
| Orphans.DirectoriesGoEmpty | pkg/om/orphaned.go:41-103 | over any lines and failures a volume that stays keeps its other files, and a volume directory that is gone was removed by a line of the run that found it empty but for a mount that line cleaned and a JSON file it removed |
| Orphans.JsonFilesGoAfterMounts | pkg/om/orphaned.go:73-101 | over any lines and failures a JSON file that is gone was removed by a line of the run that found its mount absent or cleaned it |
| Orphans.MarkedOnlyWhenEmpty | pkg/om/orphaned.go:65-72 | a pod is marked fixed only by a line about it that read an empty listing |
| Orphans.FixedHasEmptyListing | pkg/om/orphaned.go:58-72 | in every run, kubelet's changes included, a pod that came to be marked fixed has a line about it that read an empty listing |
| Orphans.FixedIsNeverTouched | pkg/om/orphaned.go:58-61 | once marked, no line touches the pod's tree again, whatever kubelet puts there |
| Orphans.TwoPassesFixIff | pkg/om/orphaned.go:63-102 | with nothing failing two passes mark a pod fixed exactly when its volume directories hold only the mount and the JSON file |
| Orphans.OthersAreNeverFixed | pkg/om/orphaned.go:58-102 | while listings are true, a pod with a volume that holds other files is never marked fixed and the volume never goes, in every run, kubelet's changes that leave such files included |
| Orphans.OrphanUidIsRead | pkg/om/orphaned.go:42-56 | the text quoted after the first phrase is read back if it has four dashes and refused otherwise, whatever follows the closing quote |
| Orphans.NoUid | pkg/om/orphaned.go:42-51 | a line without the phrase, or without a quote after it, names no pod |
| Orphans.LineIsHandledIff | pkg/om/orphaned.go:58-72 | what a line about a pod answers and remembers, in the three cases: already fixed, no tree or listing, and handled |
| Orphans.Cleaner.FixOrphanedPodIssue | pkg/om/orphaned.go:41-103 | the handler's new memory, new tree and return value |
| Orphans.Cleaner.CleanOne | pkg/om/orphaned.go:74-100 | the loop body on one volume |
| References.ReferenceListRoundTrip | pkg/om/blockvolume.go:96-123 | every non-empty list of names without blanks and brackets, in brackets after the marker, is read back exactly |
| References.NamesExact | pkg/om/blockvolume.go:107-122 | names are read exactly when the text has one opening bracket and after it one closing bracket, and are the blank-separated parts between them |
| References.NoMarkerNoNames | pkg/om/blockvolume.go:96-101 | a line without the marker names no link |
| References.SecondMarkerEnds | pkg/om/blockvolume.go:98-103 | what follows a second marker does not matter |
| References.BaseExact | pkg/om/blockvolume.go:70-72 | the name that grep looks for is the last component of the path |
| References.RemovedIsStaleLink | pkg/om/blockvolume.go:36-94 | every file a line removes was named in it, lies under volumeDevices, contains /dev/, and with grep running normally had no mount-table match for its base name |
| References.RemovedIff | pkg/om/blockvolume.go:36-94 | a file goes if and only if the line names it, it is a block link, its removal works, and its grep failed or printed nothing |
| References.LinkInUseIsRemovedIff | pkg/om/blockvolume.go:70-82 | a named, removable link whose base name some line of the mount table holds goes if and only if its grep failed or printed nothing: always when grep fails, never when grep runs normally |
| References.FixReferenceMountIssue | pkg/om/blockvolume.go:36-66 | the loop removes exactly the named, existing, removable block links |
| LogRepair.RemovedFilesHaveCause | pkg/om/om.go:73-91 | over any log no file appears, and each file that disappears was named by a line of the log that was sent to the reference repair and whose grep allowed it |
| LogRepair.ResponsibleMeansUnmounted | pkg/om/om.go:73-91 | with grep running normally such a file lay under volumeDevices and its base name was in no line of the table |
| LogRepair.OrphansSeeTheirLines | pkg/om/om.go:73-91 | to the pods a log is exactly its lines that reach the orphan repair, in order |
| LogRepair.PodVolumesAreSafe | pkg/om/om.go:73-91 | over any log, for every volume of every pod: its directory and its JSON file go only by a line that reached the orphan repair and met the conditions above, and nothing else in it goes |
| LogRepair.Repairer.CheckMessageFileIssue | pkg/om/om.go:73-91 | the loop sends each line to the right repair, in order |
| LogRepair.LinesGoWhereTheyShould | pkg/om/om.go:78-90 | a line with the marker changes the files alone, any other line with both orphan phrases the pods alone, each exactly as its repair does and only if that is on, and every other line nothing |
| LogRepair.RepairsCanBeOff | pkg/om/om.go:78-90 | over any log, a repair that is off changes nothing of what it works on |
| NodeAddress.CacheNeverChangesAnswers | pkg/utils/util.go:400-438 | for every sequence of lookups from a faithful cache each answer is the uncached one |
| NodeAddress.UncachedExact | pkg/utils/util.go:420-437 | an uncached lookup answers the first internal address, the first external one if there is none, and the two errors exactly when the node or both kinds are missing |
| NodeAddress.AnswersAreKept | pkg/utils/util.go:416-436 | an address that was answered once is answered for good, whatever is looked up in between and whatever becomes of the node |
| NodeAddress.FailuresAreNotKept | pkg/utils/util.go:416-419 | a failed lookup leaves the cache alone and an empty text is looked up again |
| NodeAddress.FirstOfExact | pkg/utils/util.go:424-437 | the answer of a kind is its first address in list order, and there is none exactly when the list has none |
| NodeAddress.GroupByKind | pkg/utils/util.go:425-428 | the grouping loop collects each kind in list order |
| NodeAddress.GroupHead | pkg/utils/util.go:424-437 | the head of a group is the first address of its kind |
| NodeAddress.Cache.GetNodeIp | pkg/utils/util.go:416-438 | the new cache and the answer of one lookup |
| SchedulerMap.BehavesAsPairMap | pkg/csi/interface.go:105-136 | for every sequence of operations with slash-free namespaces the object answers as a map keyed by the pair |
| SchedulerMap.KeyInjective | pkg/csi/interface.go:117-136 | the joined key determines the pair when namespaces hold no slash |
| SchedulerMap.KeyCollision | pkg/csi/interface.go:117-136 | two claims share a key exactly when they are equal, or the namespace of one is the other's, a slash and the head of the other's name |
| SchedulerMap.SlashCollision | pkg/csi/interface.go:117-136 | with slashes every claim (ns, a/b) shares its key with the different claim (ns/a, b) |
| SchedulerMap.PvcPodSchedulerMap.Add | pkg/csi/interface.go:117-122 | Add changes the map as the string operation says |
| SchedulerMap.PvcPodSchedulerMap.Get | pkg/csi/interface.go:124-129 | Get answers the stored name, or the empty text |
| SchedulerMap.PvcPodSchedulerMap.Remove | pkg/csi/interface.go:131-136 | Remove drops the key |
| InFlight.AlwaysExclusive | pkg/csi/lvm/inflight.go:43-63 | in every interleaving of callers that delete only what they hold, each key has at most one holder and the set is exactly the held keys |
| InFlight.ForeignDeleteBreaksExclusion | pkg/csi/lvm/inflight.go:56-63 | without that rule two callers come to hold one key |
| InFlight.Db.Insert | pkg/csi/lvm/inflight.go:43-54 | Insert succeeds exactly when the key was absent, which it then is not |
| InFlight.Db.Delete | pkg/csi/lvm/inflight.go:58-63 | Delete removes the key |

## Left out

- Command execution, nsenter, gRPC serving, the Kubernetes API and metadata calls: inputs of each call.
- Interleavings inside one handler: isDirect is read and written without a lock, and the in-flight set is not wired into the handlers; handlers are taken as atomic.
- grep with patterns that hold other special characters than the dot: its output is an arbitrary input there, so only the statements that do not ask for plain or literal targets apply.
- Stat errors of the orphan and link repairs other than absence: existence checks are taken to be true answers.
- Device enumeration of createVG: unreachable, since getLocalDeviceNum returns 0; createVG is the PV count of an existing group, or a failure.
- JSON decoding and the one-query accessors of pkg/csi/lvm/vg.go, the controller and identity servers, metrics, flags, and the start-up code: easy members.
- SafePathRemove, HasMountRefs, Format, MountBlock and the other unused methods of the mounter.
- GlobalConfigSet and the ten-second loop of StorageOM: the configuration is a parameter and a run is any sequence of lines.
- MountRuns.NeverMountedTwice: states plain targets only, because the property fails for targets that the kernel escapes or resolves (MountRuns.EscapedTargetsPileUp, MountRuns.HiddenTargetsPileUp); MountRuns.SingleMountsIff gives the exact condition for all literal targets.
- Symlinks that change between calls: what a target resolves to is fixed for a run.
- net.ParseIP: node addresses are texts.
- Inactive volumes, which exist without a device node.
