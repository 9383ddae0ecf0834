/** The A/B root-partition updater of fruit_update.py as a state machine over one value, the
    `World`: the mount table, the files and directories that exist, the mode of the flag
    partition, the contents of each block device and the reboot marker. Every external command
    (`mount`, `umount -f`, `dd`) is a transition whose exit status comes from `script`, the
    environment's answers in the order the commands are run; every step appends to `trace`. */
module Machine {

  import opened Wrappers
  import opened Text
  import opened MountTable

  /** `__ROOT_BACKUP__`, where the non-active partition is mounted for the upgrade. */
  const RootBackup: string := "/media/root-backup"
  /** The mount point whose device is the active root. */
  const RootRo: string := "/media/root-ro"
  /** The two root partitions; the first is the default active one. */
  const DeviceA: string := "/dev/mmcblk0p2"
  const DeviceB: string := "/dev/mmcblk0p3"
  /** The small boot partition that holds the dirty flags (flag_file's default `dir`). */
  const FlagDir: string := "/media/mmcblk0p1"

  /** The raw contents of a block device. */
  type Image = seq<bv8>

  datatype Mode = ReadWrite | ReadOnly

  /** The external commands the updater runs. */
  datatype Command =
    | Remount(mode: Mode, target: string)     // mount -o remount,rw|ro target
    | Mount(device: string, target: string)   // mount device target
    | MountProc(target: string)               // mount -t proc non target
    | Bind(source: string, target: string)    // mount -o bind source target
    | ForceUnmount(target: string)            // umount -f target
    | Copy(source: string, dest: string)      // dd if=source of=dest

  /** What the package upgrade does to the root it is given: it reports a count, or fails
      after writing part of the new contents. */
  datatype UpgradeResult = Upgraded(count: nat, image: Image) | UpgradeFailed(partial: Image)

  datatype Event =
    | Ran(cmd: Command, ok: bool)
    | MadeDir(path: string)
    | Created(path: string)
    | Removed(path: string)
    | RanUpgrade(root: string, result: UpgradeResult)
    | WroteMarker(count: nat)

  /** The exceptions the updater raises. */
  datatype Failure =
    | CommandFailed(cmd: Command)             // CalledProcessError from check_call
    | NotWritable(path: string)               // IOError/OSError writing on a read-only partition
    | NotAString                              // TypeError: check_call given a non-string argument
    | MountFailed(device: string, dir: string) // RuntimeError "Failed mounting <device> at <dir>"
    | UnmountFailed(dir: string)              // RuntimeError "Failed unmounting <dir>"
    | BadMountLine(line: string)              // ValueError unpacking a /proc/mounts line
    | UpgradeError                            // the package upgrade failed

  datatype Outcome = Pass | Fail(failure: Failure)

  datatype World = World(
    mounts: seq<string>,            // /proc/mounts, one line per mount, in mount order
    paths: set<string>,             // files and directories that exist
    flagDirWritable: bool,          // FlagDir is mounted read-write
    images: map<string, Image>,     // contents of each block device
    reboot: Option<nat>,            // /run/fruit_update.reboot, holding the upgraded count
    script: seq<bool>,              // exit statuses of the commands still to run (none left: 0)
    trace: seq<Event>)              // everything done so far, in order

  // ---------------------------------------------------------------------------------------
  // External commands

  /** Whether the next command exits 0. */
  predicate NextSucceeds(script: seq<bool>)
  {
    |script| == 0 || script[0]
  }

  function Rest(script: seq<bool>): seq<bool>
  {
    if |script| == 0 then [] else script[1..]
  }

  /** Whether a command can succeed at all: `umount` needs something mounted at its target,
      `dd` needs both devices to exist. */
  predicate Feasible(w: World, c: Command)
  {
    match c
    case ForceUnmount(t) => LastAt(w.mounts, t).Some?
    case Copy(s, d) => s in w.images && d in w.images
    case _ => true
  }

  /** What a successful command changes. A remount only matters for the flag partition; a mount
      appends its line to the table; an unmount takes off the last mount at its target; `dd`
      makes the destination a copy of the source. */
  function Effect(w: World, c: Command): World
    requires Feasible(w, c)
  {
    match c
    case Remount(m, t) => if t == FlagDir then w.(flagDirWritable := m == ReadWrite) else w
    case Mount(d, t) => w.(mounts := w.mounts + [MountLine(d, t, "auto")])
    case MountProc(t) => w.(mounts := w.mounts + [MountLine("non", t, "proc")])
    case Bind(s, t) => w.(mounts := w.mounts + [MountLine(s, t, "none")])
    case ForceUnmount(t) => w.(mounts := RemoveLine(w.mounts, LastAt(w.mounts, t).value))
    case Copy(s, d) => w.(images := w.images[d := w.images[s]])
  }

  /** Run one command: it takes the next exit status from the script and is recorded in the
      trace; only a successful command has an effect. */
  function Exec(w: World, c: Command): (r: (World, bool))
    ensures r.1 == (Feasible(w, c) && NextSucceeds(w.script))
    ensures r.0.trace == w.trace + [Ran(c, r.1)] && r.0.script == Rest(w.script)
    ensures !r.1 ==> r.0 == w.(script := Rest(w.script), trace := w.trace + [Ran(c, false)])
  {
    var ok := Feasible(w, c) && NextSucceeds(w.script);
    var w1 := w.(script := Rest(w.script), trace := w.trace + [Ran(c, ok)]);
    if ok then (Effect(w1, c), true) else (w1, false)
  }

  /** `check_call` on each command in turn: stop at the first one that fails. */
  function RunAll(w: World, cmds: seq<Command>): (World, bool)
    decreases |cmds|
  {
    if |cmds| == 0 then (w, true)
    else
      var r := Exec(w, cmds[0]);
      if !r.1 then r else RunAll(r.0, cmds[1..])
  }

  /** check_call on a nonempty list runs the first command, and the rest only when it succeeds. */
  lemma RunAllFirst(w: World, cmds: seq<Command>)
    requires |cmds| > 0
    ensures RunAll(w, cmds) ==
      var r := Exec(w, cmds[0]);
      if r.1 then RunAll(r.0, cmds[1..]) else r
  {
  }

  /** `call` on each command in turn: run them all, whatever their exit status. */
  function TryAll(w: World, cmds: seq<Command>): World
    decreases |cmds|
  {
    if |cmds| == 0 then w else TryAll(Exec(w, cmds[0]).0, cmds[1..])
  }

  // ---------------------------------------------------------------------------------------
  // Partition roles (fruit_update.py:26-36)

  /** `root_partitions()`: (active, non-active). p3 is active only when mounted_at finds it at
      the read-only root; a different device, nothing, or a raise all give the default. */
  function RootPartitions(mounts: seq<string>): (r: (string, string))
    ensures r == (DeviceA, DeviceB) || r == (DeviceB, DeviceA)
    ensures r.0 != r.1
    ensures r.0 == DeviceB <==> MountedAt(mounts, RootRo) == Success(Some(DeviceB))
  {
    if MountedAt(mounts, RootRo) == Success(Some(DeviceB)) then (DeviceB, DeviceA) else (DeviceA, DeviceB)
  }

  // ---------------------------------------------------------------------------------------
  // Dirty flags (fruit_update.py:39-67)

  /** `os.path.join(dir, name)` for two components. */
  function PathJoin(dir: string, name: string): string
  {
    if |name| > 0 && name[0] == '/' then name
    else if |dir| == 0 || dir[|dir| - 1] == '/' then dir + name
    else dir + "/" + name
  }

  /** `s.rstrip("/")`. */
  function StripTrailingSlashes(s: string): string
  {
    if |s| > 0 && s[|s| - 1] == '/' then StripTrailingSlashes(s[..|s| - 1]) else s
  }

  predicate AllSlashes(s: string)
  {
    forall k :: 0 <= k < |s| ==> s[k] == '/'
  }

  /** `os.path.dirname(p)`: everything up to the last "/", with trailing slashes removed unless
      it is nothing but slashes. */
  function Dirname(p: string): string
  {
    var head := match LastIndexOf(p, '/') case None => [] case Some(k) => p[..k + 1];
    if |head| > 0 && !AllSlashes(head) then StripTrailingSlashes(head) else head
  }

  /** `flag_file(device, dir)`: the device path with every "/" turned into ".", plus ".dirty",
      inside `dir`. */
  function FlagFile(device: string, dir: string): string
  {
    PathJoin(dir, ReplaceChar(device, '/', '.') + ".dirty")
  }

  /** `isdirty(device)`: the flag file exists. */
  predicate IsDirty(w: World, device: string)
  {
    FlagFile(device, FlagDir) in w.paths
  }

  /** Files on the flag partition can be created or removed only while it is read-write. */
  predicate Writable(w: World, file: string)
  {
    Dirname(file) == FlagDir ==> w.flagDirWritable
  }

  /** `mark_dirty(device)`: remount the flag's directory read-write, create the flag, remount it
      read-only; the first failure raises. */
  function MarkDirty(w: World, device: string): (World, Outcome)
  {
    var flag := FlagFile(device, FlagDir);
    var dir := Dirname(flag);
    var r1 := Exec(w, Remount(ReadWrite, dir));
    if !r1.1 then (r1.0, Fail(CommandFailed(Remount(ReadWrite, dir))))
    else if !Writable(r1.0, flag) then (r1.0, Fail(NotWritable(flag)))
    else
      var w2 := r1.0.(paths := r1.0.paths + {flag}, trace := r1.0.trace + [Created(flag)]);
      var r3 := Exec(w2, Remount(ReadOnly, dir));
      if !r3.1 then (r3.0, Fail(CommandFailed(Remount(ReadOnly, dir)))) else (r3.0, Pass)
  }

  /** `mark_clean(device)` as written: with no flag it does nothing. With a flag, line 65 hands
      the builtin `dir` (there is no local of that name) to check_call, which raises TypeError
      before any command runs, so the flag is never removed. */
  function MarkClean(w: World, device: string): (World, Outcome)
  {
    var flag := FlagFile(device, FlagDir);
    if flag in w.paths then (w, Fail(NotAString)) else (w, Pass)
  }

  /** `mark_clean(device)` as evidently intended, the mirror image of mark_dirty: remount the
      flag's directory read-write, remove the flag, remount it read-only. */
  function MarkCleanFixed(w: World, device: string): (World, Outcome)
  {
    var flag := FlagFile(device, FlagDir);
    var dir := Dirname(flag);
    if flag !in w.paths then (w, Pass)
    else
      var r1 := Exec(w, Remount(ReadWrite, dir));
      if !r1.1 then (r1.0, Fail(CommandFailed(Remount(ReadWrite, dir))))
      else if !Writable(r1.0, flag) then (r1.0, Fail(NotWritable(flag)))
      else
        var w2 := r1.0.(paths := r1.0.paths - {flag}, trace := r1.0.trace + [Removed(flag)]);
        var r3 := Exec(w2, Remount(ReadOnly, dir));
        if !r3.1 then (r3.0, Fail(CommandFailed(Remount(ReadOnly, dir)))) else (r3.0, Pass)
  }

  // ---------------------------------------------------------------------------------------
  // The backup mount (fruit_update.py:70-96)

  /** The four mounts of mount_root_backup, in order. */
  function MountCommands(device: string, dir: string): seq<Command>
  {
    [Mount(device, dir), MountProc(dir + "/proc"), Bind("/sys", dir + "/sys"), Bind("/dev", dir + "/dev")]
  }

  /** `mount_root_backup(device, dir)`: create `dir` if it does not exist, then run the four
      mounts in order. Any failure raises one "Failed mounting" error; the mounts already made
      stay in place. */
  function MountRootBackup(w: World, device: string, dir: string): (World, Outcome)
  {
    var w0 := if dir in w.paths then w else w.(paths := w.paths + {dir}, trace := w.trace + [MadeDir(dir)]);
    var r := RunAll(w0, MountCommands(device, dir));
    (r.0, if r.1 then Pass else Fail(MountFailed(device, dir)))
  }

  /** The four forced unmounts of unmount_root_backup, in order. */
  function UnmountCommands(dir: string): seq<Command>
  {
    [ForceUnmount(dir + "/dev"), ForceUnmount(dir + "/sys"), ForceUnmount(dir + "/proc"), ForceUnmount(dir)]
  }

  /** `unmount_root_backup(dir)`: attempt the four forced unmounts ignoring their status, then
      raise when mounted_at still finds `dir` (or itself raises). */
  function UnmountRootBackup(w: World, dir: string): (World, Outcome)
  {
    var w1 := TryAll(w, UnmountCommands(dir));
    match MountedAt(w1.mounts, dir)
    case Failure(line) => (w1, Fail(BadMountLine(line)))
    case Success(Some(_)) => (w1, Fail(UnmountFailed(dir)))
    case Success(None) => (w1, Pass)
  }

  // ---------------------------------------------------------------------------------------
  // The upgrade and update() (fruit_update.py:99-153)

  /** `apk_upgrade(root)` as an abstract step: it rewrites the device mounted at `root` (fully
      or in part) and returns the upgraded count, or fails. */
  function Upgrade(w: World, root: string, up: UpgradeResult): (World, Option<nat>)
  {
    var w1 := w.(trace := w.trace + [RanUpgrade(root, up)]);
    var image := if up.Upgraded? then up.image else up.partial;
    var w2 := match MountedAt(w.mounts, root)
      case Success(Some(dev)) => w1.(images := w1.images[dev := image])
      case _ => w1;
    (w2, if up.Upgraded? then Some(up.count) else None)
  }

  /** The code as written, or with the two evident slips corrected. */
  datatype Variant = AsWritten | Corrected

  /** The directory unmounted after the upgrade and in the handler: as written, the non-active
      device's path (lines 141 and 152); corrected, the backup directory. */
  function TeardownDir(v: Variant, nonactive: string): string
  {
    if v == AsWritten then nonactive else RootBackup
  }

  /** The first half of update()'s `try` (lines 132-138) for given partition roles: clear the
      backup directory, recover a dirty non-active partition by cloning the active one onto it,
      mark it dirty, then go on with the upgrade. */
  function UpdateSteps(w: World, active: string, nonactive: string, up: UpgradeResult, v: Variant): (World, Outcome)
  {
    var u := UnmountRootBackup(w, RootBackup);
    if u.1.Fail? then u
    else
      var c := if IsDirty(u.0, nonactive) then Exec(u.0, Copy(active, nonactive)) else (u.0, true);
      if !c.1 then (c.0, Fail(CommandFailed(Copy(active, nonactive))))
      else
        var d := MarkDirty(c.0, nonactive);
        if d.1.Fail? then d else UpgradeSteps(d.0, nonactive, up, v)
  }

  /** The second half of update()'s `try` (lines 139-140): mount the non-active partition and
      upgrade it, then finish. */
  function UpgradeSteps(w: World, nonactive: string, up: UpgradeResult, v: Variant): (World, Outcome)
  {
    var m := MountRootBackup(w, nonactive, RootBackup);
    if m.1.Fail? then m
    else
      var g := Upgrade(m.0, RootBackup, up);
      if g.1.None? then (g.0, Fail(UpgradeError)) else FinishSteps(g.0, nonactive, g.1.value, v)
  }

  /** The end of update()'s `try` (lines 141-146), once `count` packages were upgraded: unmount,
      mark the partition clean, and leave the reboot marker when anything was upgraded. */
  function FinishSteps(w: World, nonactive: string, count: nat, v: Variant): (World, Outcome)
  {
    var t := UnmountRootBackup(w, TeardownDir(v, nonactive));
    if t.1.Fail? then t
    else
      var k := if v == AsWritten then MarkClean(t.0, nonactive) else MarkCleanFixed(t.0, nonactive);
      if k.1.Fail? then k
      else if count > 0 then (k.0.(reboot := Some(count), trace := k.0.trace + [WroteMarker(count)]), Pass)
      else (k.0, Pass)
  }

  /** `update()`: resolve the roles, run the steps; on a failure, attempt the teardown unmount,
      ignore how it ends, and report the original failure. */
  function Update(w: World, up: UpgradeResult, v: Variant): (World, Outcome)
  {
    var (active, nonactive) := RootPartitions(w.mounts);
    var r := UpdateSteps(w, active, nonactive, up, v);
    if r.1.Pass? then r else (UnmountRootBackup(r.0, TeardownDir(v, nonactive)).0, r.1)
  }
}
