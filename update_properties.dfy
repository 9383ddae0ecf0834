/** What fruit_update.py promises, proved about the Machine model: flag naming, the flag store,
    the backup mount, and the ordering and crash-recovery guarantees of update(). */
module UpdateProperties {

  import opened Wrappers
  import opened Text
  import opened MountTable
  import opened Machine

  // ---------------------------------------------------------------------------------------
  // The script of exit statuses

  /** Whether the command `i` places ahead runs with exit status 0. */
  predicate Ok(script: seq<bool>, i: nat)
  {
    i >= |script| || script[i]
  }

  lemma RestOk(script: seq<bool>, i: nat)
    ensures NextSucceeds(script) == Ok(script, 0)
    ensures Ok(Rest(script), i) == Ok(script, i + 1)
  {
  }

  // ---------------------------------------------------------------------------------------
  // Flag naming

  /** The flag of a device is "<FlagDir>/<device with every '/' as '.'>.dirty". */
  lemma FlagFileShape(device: string)
    ensures FlagFile(device, FlagDir) == FlagDir + "/" + ReplaceChar(device, '/', '.') + ".dirty"
  {
    var name := ReplaceChar(device, '/', '.') + ".dirty";
    assert name[0] != '/' by {
      if |device| > 0 { assert name[0] == ReplaceChar(device, '/', '.')[0]; }
    }
    assert FlagDir[|FlagDir| - 1] == '1';
  }

  /** The last "/" of a flag is the one after FlagDir. */
  lemma LastSlashOfFlagFile(device: string)
    ensures LastIndexOf(FlagFile(device, FlagDir), '/') == Some(|FlagDir|)
  {
    FlagFileShape(device);
    ReplaceCharSpec(device, '/', '.');
    var name := ReplaceChar(device, '/', '.') + ".dirty";
    assert '/' !in name by {
      forall i | 0 <= i < |name| ensures name[i] != '/' {
        if i < |device| { assert name[i] == ReplaceChar(device, '/', '.')[i]; }
      }
    }
    var p := FlagDir + "/" + name;
    var n := |FlagDir|;
    forall i | n < i < |p| ensures p[i] != '/' {
      assert p[i] == name[i - n - 1];
    }
    LastIndexOfAt(p, '/', n);
  }

  /** mark_dirty and mark_clean remount the flag partition: the directory of any flag is FlagDir. */
  lemma DirnameOfFlagFile(device: string)
    ensures Dirname(FlagFile(device, FlagDir)) == FlagDir
  {
    LastSlashOfFlagFile(device);
    FlagFileShape(device);
    var p := FlagFile(device, FlagDir);
    var head := p[..|FlagDir| + 1];
    assert head == FlagDir + "/";
    assert head[1] == 'm';
    assert head[..|head| - 1] == FlagDir;
    assert StripTrailingSlashes(FlagDir) == FlagDir;
    assert StripTrailingSlashes(head) == FlagDir;
    assert !AllSlashes(head);
  }

  /** '/' to '.' loses nothing on device paths without dots. */
  lemma {:induction false} DotsInjective(d1: string, d2: string)
    requires '.' !in d1 && '.' !in d2
    requires ReplaceChar(d1, '/', '.') == ReplaceChar(d2, '/', '.')
    ensures d1 == d2
  {
    ReplaceCharSpec(d1, '/', '.');
    ReplaceCharSpec(d2, '/', '.');
    var r := ReplaceChar(d1, '/', '.');
    forall k | 0 <= k < |d1| ensures d1[k] == d2[k] {
      assert d1[k] in d1 && d2[k] in d2;
      assert r[k] == if d1[k] == '/' then '.' else d1[k];
      assert r[k] == if d2[k] == '/' then '.' else d2[k];
    }
  }

  /** Devices whose paths hold no '.' have distinct flags; in particular the two partitions do. */
  lemma FlagFileInjective(d1: string, d2: string)
    requires '.' !in d1 && '.' !in d2
    ensures FlagFile(d1, FlagDir) == FlagFile(d2, FlagDir) <==> d1 == d2
  {
    if FlagFile(d1, FlagDir) == FlagFile(d2, FlagDir) {
      FlagFileShape(d1);
      FlagFileShape(d2);
      var n1 := ReplaceChar(d1, '/', '.');
      var n2 := ReplaceChar(d2, '/', '.');
      var p := FlagDir + "/";
      assert p + n1 + ".dirty" == p + n2 + ".dirty";
      assert |n1| == |n2|;
      assert n1 == (p + n1 + ".dirty")[|p|..|p| + |n1|];
      assert n2 == (p + n2 + ".dirty")[|p|..|p| + |n2|];
      DotsInjective(d1, d2);
    }
  }

  lemma KnownFlagsDistinct()
    ensures FlagFile(DeviceA, FlagDir) != FlagFile(DeviceB, FlagDir)
  {
    assert DeviceA[13] != DeviceB[13];
    FlagFileInjective(DeviceA, DeviceB);
  }

  // ---------------------------------------------------------------------------------------
  // The flag store

  /** mark_dirty: with a first remount that fails nothing is created; once it succeeds the flag
      exists, whether or not the final remount does; success means the flag is set and the
      partition is read-only again. Nothing else changes. */
  lemma MarkDirtyOutcome(w: World, device: string)
    ensures var (w', o) := MarkDirty(w, device);
      && (o == Pass <==> Ok(w.script, 0) && Ok(w.script, 1))
      && (!Ok(w.script, 0) ==> w'.paths == w.paths && o == Fail(CommandFailed(Remount(ReadWrite, FlagDir))))
      && (Ok(w.script, 0) ==> w'.paths == w.paths + {FlagFile(device, FlagDir)})
      && (Ok(w.script, 0) && !Ok(w.script, 1) ==> o == Fail(CommandFailed(Remount(ReadOnly, FlagDir))))
      && (o == Pass ==> IsDirty(w', device) && !w'.flagDirWritable)
      && w'.mounts == w.mounts && w'.images == w.images && w'.reboot == w.reboot
  {
    DirnameOfFlagFile(device);
    RestOk(w.script, 0);
  }

  /** mark_clean as written never clears a flag: with no flag it succeeds without running any
      command, and with a flag it raises before reaching os.remove. */
  lemma MarkCleanAsWritten(w: World, device: string)
    ensures MarkClean(w, device).0 == w
    ensures MarkClean(w, device).1 == if IsDirty(w, device) then Fail(NotAString) else Pass
  {
  }

  /** The corrected mark_clean: a clean device is left alone without running any command; a
      dirty one stays dirty when the first remount fails and is clean once it succeeds; success
      leaves the device clean and the partition read-only. */
  lemma MarkCleanFixedOutcome(w: World, device: string)
    ensures !IsDirty(w, device) ==> MarkCleanFixed(w, device) == (w, Pass)
    ensures var (w', o) := MarkCleanFixed(w, device);
      && (IsDirty(w, device) ==> (o == Pass <==> Ok(w.script, 0) && Ok(w.script, 1)))
      && (IsDirty(w, device) && !Ok(w.script, 0) ==> w'.paths == w.paths)
      && (IsDirty(w, device) && Ok(w.script, 0) ==> w'.paths == w.paths - {FlagFile(device, FlagDir)})
      && (o == Pass ==> !IsDirty(w', device))
      && (o == Pass && IsDirty(w, device) ==> !w'.flagDirWritable)
      && w'.mounts == w.mounts && w'.images == w.images && w'.reboot == w.reboot
  {
    DirnameOfFlagFile(device);
    RestOk(w.script, 0);
  }

  // ---------------------------------------------------------------------------------------
  // Traces

  /** `w'` continues the history of `w`. */
  predicate Extends(w: World, w': World)
  {
    |w.trace| <= |w'.trace| && w'.trace[..|w.trace|] == w.trace
  }

  /** What happened between `w` and `w'`. */
  function NewEvents(w: World, w': World): seq<Event>
    requires Extends(w, w')
  {
    w'.trace[|w.trace|..]
  }

  lemma ExtendsTrans(a: World, b: World, c: World)
    requires Extends(a, b) && Extends(b, c)
    ensures Extends(a, c) && NewEvents(a, c) == NewEvents(a, b) + NewEvents(b, c)
  {
    assert c.trace[..|b.trace|][..|a.trace|] == c.trace[..|a.trace|];
    assert c.trace == b.trace + NewEvents(b, c);
    assert b.trace == a.trace + NewEvents(a, b);
  }

  /** The commands run, in order. */
  function RanCommands(t: seq<Event>): seq<Command>
  {
    if |t| == 0 then [] else (if t[0].Ran? then [t[0].cmd] else []) + RanCommands(t[1..])
  }

  lemma {:induction false} RanCommandsConcat(a: seq<Event>, b: seq<Event>)
    ensures RanCommands(a + b) == RanCommands(a) + RanCommands(b)
  {
    if |a| > 0 {
      assert (a + b)[0] == a[0] && (a + b)[1..] == a[1..] + b;
      RanCommandsConcat(a[1..], b);
    } else {
      assert a + b == b;
    }
  }

  // ---------------------------------------------------------------------------------------
  // Unmounting

  /** Every forced unmount leaves the table without a mount at `dir` when it had none; the
      script advances by one per command and every command is recorded. */
  lemma {:induction false} TryAllUnmounts(w: World, cmds: seq<Command>, dir: string)
    requires forall k :: 0 <= k < |cmds| ==> cmds[k].ForceUnmount?
    ensures var w' := TryAll(w, cmds);
      && Extends(w, w') && RanCommands(NewEvents(w, w')) == cmds
      && w'.paths == w.paths && w'.images == w.images && w'.reboot == w.reboot
      && w'.flagDirWritable == w.flagDirWritable
      && (MountedAt(w.mounts, dir) == Success(None) ==> MountedAt(w'.mounts, dir) == Success(None))
    decreases |cmds|
  {
    if |cmds| > 0 {
      var r := Exec(w, cmds[0]);
      if r.1 {
        var i := LastAt(w.mounts, cmds[0].target).value;
        if MountedAt(w.mounts, dir) == Success(None) {
          RemoveKeepsUnmounted(w.mounts, i, dir);
        }
      }
      TryAllUnmounts(r.0, cmds[1..], dir);
      var w' := TryAll(r.0, cmds[1..]);
      ExtendsTrans(w, r.0, w');
      assert NewEvents(w, r.0) == [Ran(cmds[0], r.1)];
      RanCommandsConcat([Ran(cmds[0], r.1)], NewEvents(r.0, w'));
      assert cmds == [cmds[0]] + cmds[1..];
    } else {
      assert NewEvents(w, w) == [];
    }
  }

  /** unmount_root_backup attempts the four forced unmounts in order, whatever each returns, and
      succeeds exactly when mounted_at then finds nothing at `dir`; in particular it succeeds when
      nothing was mounted there to begin with. It touches nothing but the mount table. */
  lemma UnmountRootBackupOutcome(w: World, dir: string)
    ensures var (w', o) := UnmountRootBackup(w, dir);
      && Extends(w, w') && RanCommands(NewEvents(w, w')) == UnmountCommands(dir)
      && (o == Pass <==> MountedAt(w'.mounts, dir) == Success(None))
      && (MountedAt(w.mounts, dir) == Success(None) ==> o == Pass)
      && w'.paths == w.paths && w'.images == w.images && w'.reboot == w.reboot
      && w'.flagDirWritable == w.flagDirWritable
  {
    TryAllUnmounts(w, UnmountCommands(dir), dir);
  }

  // ---------------------------------------------------------------------------------------
  // Mounting

  /** The table line a successful mount command adds. */
  function AddedLine(c: Command): string
  {
    match c
    case Mount(d, t) => MountLine(d, t, "auto")
    case MountProc(t) => MountLine("non", t, "proc")
    case Bind(s, t) => MountLine(s, t, "none")
    case _ => ""
  }

  predicate IsMountCommand(c: Command)
  {
    c.Mount? || c.MountProc? || c.Bind?
  }

  /** How many of the next `n` commands succeed before the first failure. */
  function Leading(script: seq<bool>, n: nat): (k: nat)
    ensures k <= n
  {
    if n == 0 || !NextSucceeds(script) then 0 else 1 + Leading(Rest(script), n - 1)
  }

  function AddedLines(cmds: seq<Command>): (lines: seq<string>)
    ensures |lines| == |cmds|
  {
    if |cmds| == 0 then [] else [AddedLine(cmds[0])] + AddedLines(cmds[1..])
  }

  function Min(a: nat, b: nat): nat { if a <= b then a else b }

  /** A mount command runs when its exit status is 0 and then appends its line; nothing but
      the table changes. */
  lemma ExecMount(w: World, c: Command)
    requires IsMountCommand(c)
    ensures var r := Exec(w, c);
      && r.1 == NextSucceeds(w.script)
      && r.0.mounts == (if r.1 then w.mounts + [AddedLine(c)] else w.mounts)
      && r.0.paths == w.paths && r.0.images == w.images
      && r.0.reboot == w.reboot && r.0.flagDirWritable == w.flagDirWritable
  {
  }

  lemma AddedLinesCons(cmds: seq<Command>, k: nat)
    requires 0 < |cmds| && k < |cmds|
    ensures AddedLines(cmds)[..k + 1] == [AddedLine(cmds[0])] + AddedLines(cmds[1..])[..k]
  {
  }

  /** Mount commands run with check_call in turn: the ones that succeed before the first failure
      add their lines in order and stay, and nothing but the table changes. */
  lemma {:induction false} RunAllMounts(w: World, cmds: seq<Command>)
    requires forall k :: 0 <= k < |cmds| ==> IsMountCommand(cmds[k])
    ensures RunAll(w, cmds).0.mounts == w.mounts + AddedLines(cmds)[..Leading(w.script, |cmds|)]
    ensures RunAll(w, cmds).1 <==> Leading(w.script, |cmds|) == |cmds|
    ensures RunAll(w, cmds).0.paths == w.paths && RunAll(w, cmds).0.images == w.images
    ensures RunAll(w, cmds).0.reboot == w.reboot && RunAll(w, cmds).0.flagDirWritable == w.flagDirWritable
    decreases |cmds|
  {
    if |cmds| > 0 {
      var r := Exec(w, cmds[0]);
      ExecMount(w, cmds[0]);
      if r.1 {
        RunAllMounts(r.0, cmds[1..]);
        var k := Leading(r.0.script, |cmds| - 1);
        assert Leading(w.script, |cmds|) == k + 1;
        AddedLinesCons(cmds, k);
      } else {
        assert Leading(w.script, |cmds|) == 0;
      }
    }
  }

  lemma SliceCons(cmds: seq<Command>, k: nat)
    requires |cmds| > 0
    ensures cmds[..Min(k + 2, |cmds|)] == [cmds[0]] + cmds[1..][..Min(k + 1, |cmds| - 1)]
  {
  }

  lemma RanSlice(cmds: seq<Command>, e: Event, rest: seq<Event>, k: nat)
    requires |cmds| > 0 && e == Ran(cmds[0], true)
    requires RanCommands(rest) == cmds[1..][..Min(k + 1, |cmds| - 1)]
    ensures RanCommands([e] + rest) == cmds[..Min(k + 2, |cmds|)]
  {
    RanCommandsConcat([e], rest);
    assert RanCommands([e]) == [cmds[0]];
    SliceCons(cmds, k);
  }

  /** The commands mount_root_backup's check_calls run: those that succeed, then the one that
      failed, in order. */
  lemma {:induction false} RunAllCommands(w: World, cmds: seq<Command>)
    requires forall k :: 0 <= k < |cmds| ==> IsMountCommand(cmds[k])
    ensures Extends(w, RunAll(w, cmds).0)
    ensures RanCommands(NewEvents(w, RunAll(w, cmds).0)) == cmds[..Min(Leading(w.script, |cmds|) + 1, |cmds|)]
    decreases |cmds|
  {
    if |cmds| == 0 {
      assert NewEvents(w, w) == [];
    } else {
      var r := Exec(w, cmds[0]);
      RunAllFirst(w, cmds);
      assert NewEvents(w, r.0) == [Ran(cmds[0], r.1)];
      if r.1 {
        RunAllCommands(r.0, cmds[1..]);
        var k := Leading(r.0.script, |cmds| - 1);
        LeadingNext(w.script, |cmds|);
        RanStep(w, r.0, RunAll(r.0, cmds[1..]).0, cmds, k);
      } else {
        assert RanCommands([Ran(cmds[0], r.1)]) == [cmds[0]];
        assert cmds[..1] == [cmds[0]];
      }
    }
  }

  lemma LeadingNext(script: seq<bool>, n: nat)
    requires n > 0 && NextSucceeds(script)
    ensures Leading(script, n) == 1 + Leading(Rest(script), n - 1)
  {
  }

  /** A successful first command in front of the rest of a check_call run. */
  lemma RanStep(w: World, m: World, w': World, cmds: seq<Command>, k: nat)
    requires |cmds| > 0
    requires Extends(w, m) && NewEvents(w, m) == [Ran(cmds[0], true)]
    requires Extends(m, w') && RanCommands(NewEvents(m, w')) == cmds[1..][..Min(k + 1, |cmds| - 1)]
    ensures Extends(w, w') && RanCommands(NewEvents(w, w')) == cmds[..Min(k + 2, |cmds|)]
  {
    ExtendsTrans(w, m, w');
    RanSlice(cmds, Ran(cmds[0], true), NewEvents(m, w'), k);
  }

  /** The lines mount_root_backup adds: the device at `dir`, then proc, sys and dev below it. */
  function BackupLines(device: string, dir: string): seq<string>
  {
    AddedLines(MountCommands(device, dir))
  }

  /** mount_root_backup runs the device mount, then proc, sys and dev, stopping at the first
      failure; it succeeds exactly when all four do, otherwise it raises MountFailed and leaves
      the mounts already made in place. `dir` exists afterwards. */
  lemma MountRootBackupOutcome(w: World, device: string, dir: string)
    ensures var (w', o) := MountRootBackup(w, device, dir); var k := Leading(w.script, 4);
      && Extends(w, w')
      && w'.mounts == w.mounts + BackupLines(device, dir)[..k]
      && (o == Pass <==> k == 4)
      && (o != Pass ==> o == Fail(MountFailed(device, dir)))
      && RanCommands(NewEvents(w, w')) == MountCommands(device, dir)[..Min(k + 1, 4)]
      && w'.paths == w.paths + {dir} && w'.images == w.images && w'.reboot == w.reboot
      && w'.flagDirWritable == w.flagDirWritable
  {
    var w0 := if dir in w.paths then w else w.(paths := w.paths + {dir}, trace := w.trace + [MadeDir(dir)]);
    assert Extends(w, w0);
    assert RanCommands(NewEvents(w, w0)) == [];
    RunAllMounts(w0, MountCommands(device, dir));
    RunAllCommands(w0, MountCommands(device, dir));
    var w' := MountRootBackup(w, device, dir).0;
    ExtendsTrans(w, w0, w');
    RanCommandsConcat(NewEvents(w, w0), NewEvents(w0, w'));
  }

  // ---------------------------------------------------------------------------------------
  // Partition roles

  /** root_partitions picks p3 as active exactly when the scan of the table for the read-only
      root stops at a well-formed line whose device is p3. */
  lemma RootPartitionsMeaning(mounts: seq<string>)
    ensures var i := StopIndex(mounts, RootRo);
      RootPartitions(mounts) == (DeviceB, DeviceA) <==>
        i < |mounts| && Fields3(mounts[i]).Some? && Fields3(mounts[i]).value.0 == DeviceB
  {
    MountedAtMeaning(mounts, RootRo);
  }
}
