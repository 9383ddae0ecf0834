/** fruit_update.py as the program runs it: one object holds the machine's state, and each
    function of the script is a method that changes that state in place, step by step. Every
    method is proved to do exactly what the corresponding function of the Machine model says,
    so everything proved about Machine holds of these methods. */
module Host {

  import opened Wrappers
  import opened Text
  import opened MountTable
  import opened Machine

  class System {
    var mounts: seq<string>
    var paths: set<string>
    var flagDirWritable: bool
    var images: map<string, Image>
    var reboot: Option<nat>
    var script: seq<bool>
    var trace: seq<Event>

    /** The state as one value. */
    function State(): World
      reads this
    {
      World(mounts, paths, flagDirWritable, images, reboot, script, trace)
    }

    constructor (w: World)
      ensures State() == w
    {
      mounts, paths, flagDirWritable, images := w.mounts, w.paths, w.flagDirWritable, w.images;
      reboot, script, trace := w.reboot, w.script, w.trace;
    }

    /** `mounted_at(dir)`: read the table line by line; a line that does not unpack raises;
        the first line mounted at `dir` gives its device. */
    method MountedAt(dir: string) returns (r: Result<Option<string>, string>)
      ensures r == MountTable.MountedAt(mounts, dir)
    {
      var i := 0;
      while i < |mounts|
        invariant 0 <= i <= |mounts|
        invariant MountTable.MountedAt(mounts[i..], dir) == MountTable.MountedAt(mounts, dir)
      {
        assert mounts[i..][0] == mounts[i] && mounts[i..][1..] == mounts[i + 1..];
        match Fields3(mounts[i]) {
          case None =>
            return Failure(mounts[i]);
          case Some(f) =>
            if f.1 == dir {
              return Success(Some(f.0));
            }
        }
        i := i + 1;
      }
      return Success(None);
    }

    /** `root_partitions()`: p3 is active when it is mounted at the read-only root; anything
        else, a raise included, leaves p2 active. */
    method RootPartitions() returns (active: string, nonactive: string)
      ensures (active, nonactive) == Machine.RootPartitions(mounts)
    {
      var dev := MountedAt(RootRo);
      if dev == Success(Some(DeviceB)) {
        return DeviceB, DeviceA;
      }
      return DeviceA, DeviceB;
    }

    /** `isdirty(device)`. */
    method IsDirty(device: string) returns (dirty: bool)
      ensures dirty == Machine.IsDirty(State(), device)
    {
      dirty := FlagFile(device, FlagDir) in paths;
    }

    /** One external command: it takes the next exit status and is recorded; only a command
        that succeeds has its effect. */
    method Run(c: Command) returns (ok: bool)
      modifies this
      ensures (State(), ok) == Exec(old(State()), c)
    {
      ok := Feasible(State(), c) && NextSucceeds(script);
      script := Rest(script);
      trace := trace + [Ran(c, ok)];
      if ok {
        match c {
          case Remount(m, t) =>
            if t == FlagDir {
              flagDirWritable := m == ReadWrite;
            }
          case Mount(d, t) =>
            mounts := mounts + [MountLine(d, t, "auto")];
          case MountProc(t) =>
            mounts := mounts + [MountLine("non", t, "proc")];
          case Bind(s, t) =>
            mounts := mounts + [MountLine(s, t, "none")];
          case ForceUnmount(t) =>
            mounts := RemoveLine(mounts, LastAt(mounts, t).value);
          case Copy(s, d) =>
            images := images[d := images[s]];
        }
      }
    }

    /** `mark_dirty(device)`. */
    method MarkDirty(device: string) returns (o: Outcome)
      modifies this
      ensures (State(), o) == Machine.MarkDirty(old(State()), device)
    {
      var flag := FlagFile(device, FlagDir);
      var dir := Dirname(flag);
      var ok := Run(Remount(ReadWrite, dir));
      if !ok {
        return Fail(CommandFailed(Remount(ReadWrite, dir)));
      }
      if !Writable(State(), flag) {
        return Fail(NotWritable(flag));
      }
      paths := paths + {flag};
      trace := trace + [Created(flag)];
      ok := Run(Remount(ReadOnly, dir));
      if !ok {
        return Fail(CommandFailed(Remount(ReadOnly, dir)));
      }
      return Pass;
    }

    /** `mark_clean(device)` as written: a flag makes line 65 raise before anything runs. */
    method MarkClean(device: string) returns (o: Outcome)
      ensures (State(), o) == Machine.MarkClean(State(), device)
    {
      var flag := FlagFile(device, FlagDir);
      if flag in paths {
        return Fail(NotAString);
      }
      return Pass;
    }

    /** `mark_clean(device)` as evidently intended. */
    method MarkCleanFixed(device: string) returns (o: Outcome)
      modifies this
      ensures (State(), o) == Machine.MarkCleanFixed(old(State()), device)
    {
      var flag := FlagFile(device, FlagDir);
      var dir := Dirname(flag);
      if flag !in paths {
        return Pass;
      }
      var ok := Run(Remount(ReadWrite, dir));
      if !ok {
        return Fail(CommandFailed(Remount(ReadWrite, dir)));
      }
      if !Writable(State(), flag) {
        return Fail(NotWritable(flag));
      }
      paths := paths - {flag};
      trace := trace + [Removed(flag)];
      ok := Run(Remount(ReadOnly, dir));
      if !ok {
        return Fail(CommandFailed(Remount(ReadOnly, dir)));
      }
      return Pass;
    }

    /** `mount_root_backup(device, dir)`: create `dir` when missing, then the four mounts in
        order; the first failure raises one "Failed mounting" error. */
    method MountRootBackup(device: string, dir: string) returns (o: Outcome)
      modifies this
      ensures (State(), o) == Machine.MountRootBackup(old(State()), device, dir)
    {
      if dir !in paths {
        paths := paths + {dir};
        trace := trace + [MadeDir(dir)];
      }
      ghost var w0 := State();
      ghost var cmds := MountCommands(device, dir);
      RunAllFirst(w0, cmds);
      var ok := Run(Mount(device, dir));
      if ok {
        assert cmds[1..] == [MountProc(dir + "/proc"), Bind("/sys", dir + "/sys"), Bind("/dev", dir + "/dev")];
        RunAllFirst(State(), cmds[1..]);
        ok := Run(MountProc(dir + "/proc"));
        if ok {
          assert cmds[2..] == [Bind("/sys", dir + "/sys"), Bind("/dev", dir + "/dev")];
          RunAllFirst(State(), cmds[2..]);
          ok := Run(Bind("/sys", dir + "/sys"));
          if ok {
            assert cmds[3..] == [Bind("/dev", dir + "/dev")];
            RunAllFirst(State(), cmds[3..]);
            ok := Run(Bind("/dev", dir + "/dev"));
            assert cmds[4..] == [];
          }
        }
      }
      o := if ok then Pass else Fail(MountFailed(device, dir));
    }

    /** `unmount_root_backup(dir)`: force-unmount dev, sys, proc and `dir` itself whatever each
        returns, then raise when something is still mounted at `dir`. */
    method UnmountRootBackup(dir: string) returns (o: Outcome)
      modifies this
      ensures (State(), o) == Machine.UnmountRootBackup(old(State()), dir)
    {
      var dirs := [dir + "/dev", dir + "/sys", dir + "/proc", dir];
      ghost var cmds := UnmountCommands(dir);
      for i := 0 to |dirs|
        invariant TryAll(State(), cmds[i..]) == TryAll(old(State()), cmds)
      {
        assert cmds[i..][0] == ForceUnmount(dirs[i]) && cmds[i..][1..] == cmds[i + 1..];
        var _ := Run(ForceUnmount(dirs[i]));
      }
      assert cmds[4..] == [];
      var at := MountedAt(dir);
      match at {
        case Failure(line) => o := Fail(BadMountLine(line));
        case Success(Some(_)) => o := Fail(UnmountFailed(dir));
        case Success(None) => o := Pass;
      }
    }

    /** `apk_upgrade(root)`, abstracted: the device mounted at `root` gets the new contents
        (in part when the upgrade fails), and the count comes back on success. */
    method Upgrade(root: string, up: UpgradeResult) returns (count: Option<nat>)
      modifies this
      ensures (State(), count) == Machine.Upgrade(old(State()), root, up)
    {
      var dev := MountedAt(root);
      trace := trace + [RanUpgrade(root, up)];
      var image := if up.Upgraded? then up.image else up.partial;
      if dev.Success? && dev.value.Some? {
        images := images[dev.value.value := image];
      }
      count := if up.Upgraded? then Some(up.count) else None;
    }

    /** The first half of update()'s `try` (lines 132-138) for given roles: clear the backup
        directory, clone a dirty non-active partition, mark it dirty, go on with the upgrade. */
    method UpdateSteps(active: string, nonactive: string, up: UpgradeResult, v: Variant) returns (o: Outcome)
      modifies this
      ensures (State(), o) == Machine.UpdateSteps(old(State()), active, nonactive, up, v)
    {
      o := UnmountRootBackup(RootBackup);
      if o.Fail? {
        return;
      }
      var dirty := IsDirty(nonactive);
      if dirty {
        var ok := Run(Copy(active, nonactive));
        if !ok {
          return Fail(CommandFailed(Copy(active, nonactive)));
        }
      }
      o := MarkDirty(nonactive);
      if o.Fail? {
        return;
      }
      o := UpgradeSteps(nonactive, up, v);
    }

    /** Lines 139-140: mount the non-active partition and upgrade it, then finish. */
    method UpgradeSteps(nonactive: string, up: UpgradeResult, v: Variant) returns (o: Outcome)
      modifies this
      ensures (State(), o) == Machine.UpgradeSteps(old(State()), nonactive, up, v)
    {
      o := MountRootBackup(nonactive, RootBackup);
      if o.Fail? {
        return;
      }
      var count := Upgrade(RootBackup, up);
      if count.None? {
        return Fail(UpgradeError);
      }
      o := FinishSteps(nonactive, count.value, v);
    }

    /** Lines 141-146: unmount, mark the partition clean, and leave the reboot marker when
        anything was upgraded. */
    method FinishSteps(nonactive: string, count: nat, v: Variant) returns (o: Outcome)
      modifies this
      ensures (State(), o) == Machine.FinishSteps(old(State()), nonactive, count, v)
    {
      o := UnmountRootBackup(TeardownDir(v, nonactive));
      if o.Fail? {
        return;
      }
      if v == AsWritten {
        o := MarkClean(nonactive);
      } else {
        o := MarkCleanFixed(nonactive);
      }
      if o.Fail? {
        return;
      }
      if count > 0 {
        reboot := Some(count);
        trace := trace + [WroteMarker(count)];
      }
    }

    /** `update()`: the `try` for the roles root_partitions gives; on a failure the handler
        attempts the teardown unmount and re-raises the original failure. */
    method Update(up: UpgradeResult, v: Variant) returns (o: Outcome)
      modifies this
      ensures (State(), o) == Machine.Update(old(State()), up, v)
    {
      var active, nonactive := RootPartitions();
      o := UpdateSteps(active, nonactive, up, v);
      if o.Fail? {
        var _ := UnmountRootBackup(TeardownDir(v, nonactive));
      }
    }
  }
}
