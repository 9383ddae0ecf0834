/** Whole runs of update() in a healthy environment, where every command exits 0, nothing is
    mounted under the backup directory and both root partitions exist: the corrected updater
    succeeds, upgrades the non-active partition and leaves the mount table as it found it; the
    code as written fails at mark_clean and leaves the partition mounted at the backup
    directory. */
module UpdateRuns {

  import opened Wrappers
  import opened Text
  import opened MountTable
  import opened Machine
  import opened UpdateProperties

  // ---------------------------------------------------------------------------------------
  // The mount table

  /** A scan that finds nothing in the first part goes on into the second. */
  lemma {:induction false} MountedAtConcat(lines: seq<string>, more: seq<string>, dir: string)
    ensures MountedAt(lines + more, dir) ==
      if MountedAt(lines, dir) == Success(None) then MountedAt(more, dir) else MountedAt(lines, dir)
  {
    if |lines| > 0 {
      assert (lines + more)[0] == lines[0];
      assert (lines + more)[1..] == lines[1..] + more;
      MountedAtConcat(lines[1..], more, dir);
    } else {
      assert lines + more == more;
    }
  }

  /** Lines appended for other mount points leave the last mount at `dir` where it was. */
  lemma {:induction false} LastAtConcatElsewhere(lines: seq<string>, more: seq<string>, dir: string)
    requires forall k :: 0 <= k < |more| ==> PathOf(more[k]) != Some(dir)
    ensures LastAt(lines + more, dir) == LastAt(lines, dir)
    decreases |more|
  {
    if |more| > 0 {
      var init := more[..|more| - 1];
      assert lines + more == (lines + init) + [more[|more| - 1]];
      LastAtAppendedElsewhere(lines + init, more[|more| - 1], dir);
      LastAtConcatElsewhere(lines, init, dir);
    } else {
      assert lines + more == lines;
    }
  }

  /** Nothing is mounted at `dir`, nor at its proc, sys and dev. */
  predicate NothingUnder(mounts: seq<string>, dir: string)
  {
    forall k :: 0 <= k < |mounts| ==>
      && PathOf(mounts[k]) != Some(dir) && PathOf(mounts[k]) != Some(dir + "/proc")
      && PathOf(mounts[k]) != Some(dir + "/sys") && PathOf(mounts[k]) != Some(dir + "/dev")
  }

  /** The lines mount_root_backup adds, written out. */
  lemma BackupLinesList(device: string, dir: string)
    ensures BackupLines(device, dir) ==
      [MountLine(device, dir, "auto"), MountLine("non", dir + "/proc", "proc"),
       MountLine("/sys", dir + "/sys", "none"), MountLine("/dev", dir + "/dev", "none")]
  {
    var cmds := MountCommands(device, dir);
    assert AddedLines(cmds[3..]) == [AddedLine(cmds[3])];
    assert AddedLines(cmds[2..]) == [AddedLine(cmds[2])] + AddedLines(cmds[3..]);
    assert AddedLines(cmds[1..]) == [AddedLine(cmds[1])] + AddedLines(cmds[2..]);
  }

  /** A path below a path without spaces has no space either. */
  lemma NoSpaceBelow(dir: string)
    requires ' ' !in dir
    ensures ' ' !in dir + "/proc" && ' ' !in dir + "/sys" && ' ' !in dir + "/dev"
  {
  }

  /** The four lines of a backup mount, with their mount points. */
  lemma BackupLinesAre(device: string, dir: string)
    requires ' ' !in device && ' ' !in dir
    ensures var b := BackupLines(device, dir);
      && |b| == 4
      && PathOf(b[0]) == Some(dir)
      && PathOf(b[1]) == Some(dir + "/proc")
      && PathOf(b[2]) == Some(dir + "/sys")
      && PathOf(b[3]) == Some(dir + "/dev")
  {
    BackupLinesList(device, dir);
    NoSpaceBelow(dir);
    MountLineFields(device, dir, "auto");
    MountLineFields("non", dir + "/proc", "proc");
    MountLineFields("/sys", dir + "/sys", "none");
    MountLineFields("/dev", dir + "/dev", "none");
  }

  // ---------------------------------------------------------------------------------------
  // An environment where every command exits 0

  lemma {:induction false} DrainedScript(w: World, cmds: seq<Command>)
    requires w.script == []
    ensures TryAll(w, cmds).script == [] && RunAll(w, cmds).0.script == []
    decreases |cmds|
  {
    if |cmds| > 0 {
      DrainedScript(Exec(w, cmds[0]).0, cmds[1..]);
    }
  }

  /** A forced unmount of the last mount, when it succeeds, takes that line off. */
  lemma UnmountLast(w: World, m: seq<string>, line: string, t: string)
    requires w.script == [] && w.mounts == m + [line] && PathOf(line) == Some(t)
    ensures var r := Exec(w, ForceUnmount(t));
      r.1 && r.0.mounts == m && r.0.script == [] && r.0.paths == w.paths && r.0.images == w.images && r.0.reboot == w.reboot
  {
    LastAtAppended(m, line, t);
  }

  /** unmount_root_backup undoes mount_root_backup: the four forced unmounts take off the four
      backup lines, last first, and leave the table as it was before the mount. */
  lemma UnmountUndoesMount(w: World, m: seq<string>, device: string, dir: string)
    requires w.script == [] && ' ' !in device && ' ' !in dir
    requires w.mounts == m + BackupLines(device, dir)
    ensures var w' := TryAll(w, UnmountCommands(dir));
      w'.mounts == m && w'.script == [] && w'.paths == w.paths && w'.images == w.images && w'.reboot == w.reboot
  {
    var b := BackupLines(device, dir);
    BackupLinesAre(device, dir);
    var cmds := UnmountCommands(dir);
    assert m + b == m + b[..3] + [b[3]];
    UnmountLast(w, m + b[..3], b[3], dir + "/dev");
    var w1 := Exec(w, cmds[0]).0;
    assert m + b[..3] == m + b[..2] + [b[2]];
    UnmountLast(w1, m + b[..2], b[2], dir + "/sys");
    var w2 := Exec(w1, cmds[1]).0;
    assert m + b[..2] == m + b[..1] + [b[1]];
    UnmountLast(w2, m + b[..1], b[1], dir + "/proc");
    var w3 := Exec(w2, cmds[2]).0;
    assert m + b[..1] == m + [b[0]];
    UnmountLast(w3, m, b[0], dir);
    var w4 := Exec(w3, cmds[3]).0;
    assert TryAll(w, cmds) == TryAll(w1, cmds[1..]);
    assert TryAll(w1, cmds[1..]) == TryAll(w2, cmds[2..]);
    assert TryAll(w2, cmds[2..]) == TryAll(w3, cmds[3..]);
    assert TryAll(w3, cmds[3..]) == w4;
  }

  /** Forced unmounts of mount points with nothing mounted there fail and change nothing. */
  lemma UnmountNothing(w: World, dir: string)
    requires w.script == [] && NothingUnder(w.mounts, dir)
    ensures var w' := TryAll(w, UnmountCommands(dir));
      w'.mounts == w.mounts && w'.script == [] && w'.paths == w.paths && w'.images == w.images && w'.reboot == w.reboot
  {
    var cmds := UnmountCommands(dir);
    LastAtSpec(w.mounts, dir);
    LastAtSpec(w.mounts, dir + "/proc");
    LastAtSpec(w.mounts, dir + "/sys");
    LastAtSpec(w.mounts, dir + "/dev");
    var w1 := Exec(w, cmds[0]).0;
    var w2 := Exec(w1, cmds[1]).0;
    var w3 := Exec(w2, cmds[2]).0;
    var w4 := Exec(w3, cmds[3]).0;
    assert TryAll(w, cmds) == TryAll(w1, cmds[1..]);
    assert TryAll(w1, cmds[1..]) == TryAll(w2, cmds[2..]);
    assert TryAll(w2, cmds[2..]) == TryAll(w3, cmds[3..]);
    assert TryAll(w3, cmds[3..]) == w4;
  }

  /** The backup lines are mounted at `dir` and below it, so their mount points share its
      second character. */
  lemma BackupLinesBelow(device: string, dir: string)
    requires ' ' !in device && ' ' !in dir && |dir| > 1
    ensures var b := BackupLines(device, dir);
      forall i :: 0 <= i < |b| ==> PathOf(b[i]).Some? && |PathOf(b[i]).value| > 1 && PathOf(b[i]).value[1] == dir[1]
  {
    var b := BackupLines(device, dir);
    BackupLinesAre(device, dir);
    forall i | 0 <= i < |b|
      ensures PathOf(b[i]).Some? && |PathOf(b[i]).value| > 1 && PathOf(b[i]).value[1] == dir[1]
    {
      if i == 1 {
        assert (dir + "/proc")[1] == dir[1];
      } else if i == 2 {
        assert (dir + "/sys")[1] == dir[1];
      } else if i == 3 {
        assert (dir + "/dev")[1] == dir[1];
      }
    }
  }

  /** The backup lines are mounted under /media. */
  lemma BackupLinesUnderMedia(device: string)
    requires ' ' !in device
    ensures var b := BackupLines(device, RootBackup);
      forall i :: 0 <= i < |b| ==> PathOf(b[i]).Some? && |PathOf(b[i]).value| > 1 && PathOf(b[i]).value[1] == 'm'
  {
    assert RootBackup[1] == 'm';
    BackupLinesBelow(device, RootBackup);
  }

  /** The paths the code as written unmounts lie under /dev. */
  lemma DeviceTargetsUnderDev(device: string)
    requires device == DeviceA || device == DeviceB
    ensures device[1] == 'd' && (device + "/proc")[1] == 'd' && (device + "/sys")[1] == 'd' && (device + "/dev")[1] == 'd'
  {
  }

  /** The backup lines are not mounted at any of the paths the code as written unmounts. */
  lemma BackupLinesNotUnderDevice(m: seq<string>, device: string)
    requires device == DeviceA || device == DeviceB
    requires NothingUnder(m, device)
    ensures NothingUnder(m + BackupLines(device, RootBackup), device)
  {
    var b := BackupLines(device, RootBackup);
    BackupLinesUnderMedia(device);
    DeviceTargetsUnderDev(device);
    var all := m + b;
    forall k | 0 <= k < |all|
      ensures && PathOf(all[k]) != Some(device) && PathOf(all[k]) != Some(device + "/proc")
              && PathOf(all[k]) != Some(device + "/sys") && PathOf(all[k]) != Some(device + "/dev")
    {
      if k >= |m| {
        assert all[k] == b[k - |m|];
      }
    }
  }

  // ---------------------------------------------------------------------------------------
  // The steps of a healthy run

  /** Every command exits 0, both root partitions exist, and the table is well formed with
      nothing mounted under the backup directory. */
  predicate Healthy(w: World)
  {
    && w.script == []
    && DeviceA in w.images && DeviceB in w.images
    && MountedAt(w.mounts, RootBackup) == Success(None)
    && NothingUnder(w.mounts, RootBackup)
  }

  lemma FirstUnmountHealthy(w: World)
    requires Healthy(w)
    ensures var u := UnmountRootBackup(w, RootBackup);
      && u.1 == Pass && u.0.mounts == w.mounts && u.0.script == []
      && u.0.paths == w.paths && u.0.images == w.images && u.0.reboot == w.reboot
  {
    UnmountNothing(w, RootBackup);
  }

  lemma CloneHealthy(w: World, active: string, nonactive: string)
    requires w.script == [] && active in w.images && nonactive in w.images
    ensures var c := if IsDirty(w, nonactive) then Exec(w, Copy(active, nonactive)) else (w, true);
      && c.1 && c.0.script == [] && c.0.mounts == w.mounts && c.0.paths == w.paths && c.0.reboot == w.reboot
      && c.0.images == if IsDirty(w, nonactive) then w.images[nonactive := w.images[active]] else w.images
  {
  }

  lemma MarkDirtyHealthy(w: World, device: string)
    requires w.script == []
    ensures var d := MarkDirty(w, device);
      && d.1 == Pass && d.0.script == [] && IsDirty(d.0, device)
      && d.0.mounts == w.mounts && d.0.images == w.images && d.0.reboot == w.reboot
  {
    MarkDirtyOutcome(w, device);
  }

  /** With every exit status 0, all of the next `n` commands succeed. */
  lemma {:induction false} LeadingDrained(n: nat)
    ensures Leading([], n) == n
  {
    if n > 0 {
      LeadingDrained(n - 1);
    }
  }

  lemma MountHealthy(w: World, device: string)
    requires w.script == []
    ensures var m := MountRootBackup(w, device, RootBackup);
      && m.1 == Pass && m.0.script == [] && m.0.mounts == w.mounts + BackupLines(device, RootBackup)
      && m.0.paths == w.paths + {RootBackup} && m.0.images == w.images && m.0.reboot == w.reboot
  {
    MountRootBackupOutcome(w, device, RootBackup);
    LeadingDrained(4);
    var w0 := if RootBackup in w.paths then w else w.(paths := w.paths + {RootBackup}, trace := w.trace + [MadeDir(RootBackup)]);
    DrainedScript(w0, MountCommands(device, RootBackup));
  }

  /** With the backup lines on a table that has nothing at the backup directory, the device
      mounted there is the one mount_root_backup mounted. */
  lemma BackupMountedAt(m: seq<string>, device: string)
    requires MountedAt(m, RootBackup) == Success(None) && ' ' !in device
    ensures MountedAt(m + BackupLines(device, RootBackup), RootBackup) == Success(Some(device))
  {
    var b := BackupLines(device, RootBackup);
    MountedAtConcat(m, b, RootBackup);
    BackupLinesList(device, RootBackup);
    MountLineFields(device, RootBackup, "auto");
  }

  /** The upgrade writes the partition mounted at the backup directory. */
  lemma UpgradeHealthy(w: World, device: string, up: UpgradeResult)
    requires MountedAt(w.mounts, RootBackup) == Success(Some(device)) && up.Upgraded?
    ensures var g := Upgrade(w, RootBackup, up);
      && g.1 == Some(up.count) && g.0.images == w.images[device := up.image]
      && g.0.mounts == w.mounts && g.0.script == w.script && g.0.paths == w.paths && g.0.reboot == w.reboot
  {
  }

  lemma DevicesHaveNoSpace()
    ensures ' ' !in DeviceA && ' ' !in DeviceB
  {
  }

  /** unmount_root_backup after mount_root_backup succeeds and restores the table. */
  lemma TeardownHealthy(w: World, m: seq<string>, device: string)
    requires w.script == [] && ' ' !in device
    requires w.mounts == m + BackupLines(device, RootBackup) && MountedAt(m, RootBackup) == Success(None)
    ensures var t := UnmountRootBackup(w, RootBackup);
      && t.1 == Pass && t.0.mounts == m && t.0.script == []
      && t.0.paths == w.paths && t.0.images == w.images && t.0.reboot == w.reboot
  {
    UnmountUndoesMount(w, m, device, RootBackup);
  }

  /** The corrected end of update(): the teardown takes the backup lines off again, and the flag
      is cleared. */
  lemma FinishCorrectedHealthy(w: World, m: seq<string>, nonactive: string, count: nat)
    requires w.script == [] && ' ' !in nonactive && IsDirty(w, nonactive)
    requires w.mounts == m + BackupLines(nonactive, RootBackup) && MountedAt(m, RootBackup) == Success(None)
    ensures var r := FinishSteps(w, nonactive, count, Corrected);
      && r.1 == Pass && r.0.mounts == m && !IsDirty(r.0, nonactive) && r.0.images == w.images
      && r.0.reboot == if count > 0 then Some(count) else w.reboot
  {
    TeardownHealthy(w, m, nonactive);
    MarkCleanFixedOutcome(UnmountRootBackup(w, RootBackup).0, nonactive);
  }

  /** The end of update() as written: the teardown unmounts paths under the device, where
      nothing is mounted, and mark_clean raises. */
  lemma FinishAsWrittenHealthy(w: World, nonactive: string, count: nat)
    requires w.script == [] && NothingUnder(w.mounts, nonactive) && IsDirty(w, nonactive)
    ensures var r := FinishSteps(w, nonactive, count, AsWritten);
      && r.1.Fail? && r.0.mounts == w.mounts && r.0.script == [] && IsDirty(r.0, nonactive)
      && r.0.images == w.images && r.0.reboot == w.reboot
  {
    UnmountNothing(w, nonactive);
    MarkCleanAsWritten(UnmountRootBackup(w, nonactive).0, nonactive);
  }

  /** The corrected upgrade half: the partition is mounted, upgraded, unmounted and cleared. */
  lemma UpgradeCorrectedHealthy(w: World, nonactive: string, up: UpgradeResult)
    requires w.script == [] && ' ' !in nonactive && IsDirty(w, nonactive) && up.Upgraded?
    requires MountedAt(w.mounts, RootBackup) == Success(None)
    ensures var r := UpgradeSteps(w, nonactive, up, Corrected);
      && r.1 == Pass && r.0.mounts == w.mounts && !IsDirty(r.0, nonactive)
      && r.0.images == w.images[nonactive := up.image]
      && r.0.reboot == if up.count > 0 then Some(up.count) else w.reboot
  {
    MountHealthy(w, nonactive);
    var m := MountRootBackup(w, nonactive, RootBackup);
    BackupMountedAt(w.mounts, nonactive);
    UpgradeHealthy(m.0, nonactive, up);
    var g := Upgrade(m.0, RootBackup, up);
    FinishCorrectedHealthy(g.0, w.mounts, nonactive, up.count);
  }

  /** The upgrade half as written: the partition is mounted and upgraded, and stays mounted. */
  lemma UpgradeAsWrittenHealthy(w: World, nonactive: string, up: UpgradeResult)
    requires w.script == [] && ' ' !in nonactive && IsDirty(w, nonactive) && up.Upgraded?
    requires MountedAt(w.mounts, RootBackup) == Success(None)
    requires NothingUnder(w.mounts + BackupLines(nonactive, RootBackup), nonactive)
    ensures var r := UpgradeSteps(w, nonactive, up, AsWritten);
      && r.1.Fail? && r.0.script == [] && r.0.mounts == w.mounts + BackupLines(nonactive, RootBackup)
      && IsDirty(r.0, nonactive) && r.0.images == w.images[nonactive := up.image] && r.0.reboot == w.reboot
  {
    MountHealthy(w, nonactive);
    var m := MountRootBackup(w, nonactive, RootBackup);
    BackupMountedAt(w.mounts, nonactive);
    UpgradeHealthy(m.0, nonactive, up);
    var g := Upgrade(m.0, RootBackup, up);
    FinishAsWrittenHealthy(g.0, nonactive, up.count);
  }

  /** Writing a device twice leaves only the second write. */
  lemma OverwriteTwice(m: map<string, Image>, k: string, a: Image, b: Image)
    ensures m[k := a][k := b] == m[k := b]
  {
  }

  /** Once the first unmount, the clone (when there is one) and mark_dirty succeed, update()'s
      `try` goes on with the upgrade half from where mark_dirty left off. */
  lemma StepsReachUpgrade(w: World, active: string, nonactive: string, up: UpgradeResult, v: Variant,
                          c: (World, bool), d: (World, Outcome))
    requires UnmountRootBackup(w, RootBackup).1 == Pass
    requires c == (var u := UnmountRootBackup(w, RootBackup).0;
                   if IsDirty(u, nonactive) then Exec(u, Copy(active, nonactive)) else (u, true))
    requires c.1 && d == MarkDirty(c.0, nonactive) && d.1 == Pass
    ensures UpdateSteps(w, active, nonactive, up, v) == UpgradeSteps(d.0, nonactive, up, v)
  {
  }

  /** update()'s `try` with the corrected code, for roles that name the two partitions. */
  lemma StepsCorrectedHealthy(w: World, active: string, nonactive: string, up: UpgradeResult)
    requires Healthy(w) && up.Upgraded? && active in w.images && nonactive in w.images && ' ' !in nonactive
    ensures var r := UpdateSteps(w, active, nonactive, up, Corrected);
      && r.1 == Pass && r.0.mounts == w.mounts && !IsDirty(r.0, nonactive)
      && r.0.images == w.images[nonactive := up.image]
      && r.0.reboot == if up.count > 0 then Some(up.count) else w.reboot
  {
    FirstUnmountHealthy(w);
    var u := UnmountRootBackup(w, RootBackup);
    CloneHealthy(u.0, active, nonactive);
    var c := if IsDirty(u.0, nonactive) then Exec(u.0, Copy(active, nonactive)) else (u.0, true);
    MarkDirtyHealthy(c.0, nonactive);
    var d := MarkDirty(c.0, nonactive);
    StepsReachUpgrade(w, active, nonactive, up, Corrected, c, d);
    UpgradeCorrectedHealthy(d.0, nonactive, up);
    assert u.0.images == w.images && d.0.images == c.0.images;
    if IsDirty(u.0, nonactive) {
      OverwriteTwice(w.images, nonactive, w.images[active], up.image);
    }
  }

  /** update()'s `try` as written, for roles that name the two partitions. */
  lemma StepsAsWrittenHealthy(w: World, active: string, nonactive: string, up: UpgradeResult)
    requires Healthy(w) && up.Upgraded? && active in w.images && nonactive in w.images && ' ' !in nonactive
    requires NothingUnder(w.mounts + BackupLines(nonactive, RootBackup), nonactive)
    ensures var r := UpdateSteps(w, active, nonactive, up, AsWritten);
      && r.1.Fail? && r.0.script == [] && r.0.mounts == w.mounts + BackupLines(nonactive, RootBackup)
      && IsDirty(r.0, nonactive) && r.0.images == w.images[nonactive := up.image] && r.0.reboot == w.reboot
  {
    FirstUnmountHealthy(w);
    var u := UnmountRootBackup(w, RootBackup);
    CloneHealthy(u.0, active, nonactive);
    var c := if IsDirty(u.0, nonactive) then Exec(u.0, Copy(active, nonactive)) else (u.0, true);
    MarkDirtyHealthy(c.0, nonactive);
    var d := MarkDirty(c.0, nonactive);
    StepsReachUpgrade(w, active, nonactive, up, AsWritten, c, d);
    UpgradeAsWrittenHealthy(d.0, nonactive, up);
    assert u.0.images == w.images && d.0.images == c.0.images;
    if IsDirty(u.0, nonactive) {
      OverwriteTwice(w.images, nonactive, w.images[active], up.image);
    }
  }

  // ---------------------------------------------------------------------------------------
  // Whole runs

  /** The corrected update() succeeds in a healthy environment: it writes the upgrade to the
      non-active partition and nowhere else, clears that partition's flag, leaves the mount
      table as it found it, and writes the marker exactly when something was upgraded. */
  lemma CorrectedUpdateSucceeds(w: World, up: UpgradeResult)
    requires Healthy(w) && up.Upgraded?
    ensures var (active, nonactive) := RootPartitions(w.mounts); var r := Update(w, up, Corrected);
      && r.1 == Pass && !IsDirty(r.0, nonactive) && r.0.mounts == w.mounts
      && r.0.images == w.images[nonactive := up.image]
      && r.0.reboot == if up.count > 0 then Some(up.count) else w.reboot
  {
    var (active, nonactive) := RootPartitions(w.mounts);
    DevicesHaveNoSpace();
    StepsCorrectedHealthy(w, active, nonactive, up);
  }

  /** update() as written, in the same healthy environment (and with nothing mounted at the
      device paths it unmounts): mark_clean raises, the unmounts aimed at the device path miss,
      and the non-active partition is left mounted at the backup directory and marked dirty. */
  lemma AsWrittenLeavesBackupMounted(w: World, up: UpgradeResult)
    requires Healthy(w) && up.Upgraded? && NothingUnder(w.mounts, RootPartitions(w.mounts).1)
    ensures var (active, nonactive) := RootPartitions(w.mounts); var r := Update(w, up, AsWritten);
      && r.1.Fail? && IsDirty(r.0, nonactive) && r.0.reboot == w.reboot
      && r.0.mounts == w.mounts + BackupLines(nonactive, RootBackup)
      && MountedAt(r.0.mounts, RootBackup) == Success(Some(nonactive))
  {
    var (active, nonactive) := RootPartitions(w.mounts);
    DevicesHaveNoSpace();
    BackupLinesNotUnderDevice(w.mounts, nonactive);
    StepsAsWrittenHealthy(w, active, nonactive, up);
    var r := UpdateSteps(w, active, nonactive, up, AsWritten);
    HandlerMisses(r.0, nonactive);
    BackupMountedAt(w.mounts, nonactive);
    var h := UnmountRootBackup(r.0, TeardownDir(AsWritten, nonactive)).0;
    assert Update(w, up, AsWritten) == (h, r.1);
  }

  /** The handler's unmount as written misses too. */
  lemma HandlerMisses(w: World, device: string)
    requires w.script == [] && NothingUnder(w.mounts, device)
    ensures var h := UnmountRootBackup(w, TeardownDir(AsWritten, device)).0;
      h.mounts == w.mounts && h.paths == w.paths && h.reboot == w.reboot
  {
    UnmountNothing(w, device);
  }
}
