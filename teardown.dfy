/** The dirty flag outlives the backup mount (fruit_update.py:139-153): the corrected update()
    removes the non-active partition's flag only after the teardown unmount has left nothing
    mounted at the backup directory, so a partition still mounted there keeps its flag. */
module UpdateTeardown {

  import opened Wrappers
  import opened MountTable
  import opened Machine
  import opened UpdateProperties
  import opened UpdateOrder

  // ---------------------------------------------------------------------------------------
  // Unmounting keeps an empty mount point empty

  /** A forced unmount, whatever its target and status, keeps `dir` unmounted. */
  lemma ExecKeepsUnmounted(w: World, c: Command, dir: string)
    requires c.ForceUnmount? && MountedAt(w.mounts, dir) == Success(None)
    ensures MountedAt(Exec(w, c).0.mounts, dir) == Success(None)
  {
    if Feasible(w, c) && NextSucceeds(w.script) {
      RemoveKeepsUnmounted(w.mounts, LastAt(w.mounts, c.target).value, dir);
    }
  }

  /** Forced unmounts run with `call` keep `dir` unmounted. */
  lemma {:induction false} TryAllKeepsUnmounted(w: World, cmds: seq<Command>, dir: string)
    requires forall k :: 0 <= k < |cmds| ==> cmds[k].ForceUnmount?
    requires MountedAt(w.mounts, dir) == Success(None)
    ensures MountedAt(TryAll(w, cmds).mounts, dir) == Success(None)
    decreases |cmds|
  {
    if |cmds| > 0 {
      ExecKeepsUnmounted(w, cmds[0], dir);
      TryAllKeepsUnmounted(Exec(w, cmds[0]).0, cmds[1..], dir);
    }
  }

  /** unmount_root_backup, aimed at any directory, keeps `dir` unmounted. */
  lemma UnmountKeepsUnmounted(w: World, target: string, dir: string)
    requires MountedAt(w.mounts, dir) == Success(None)
    ensures MountedAt(UnmountRootBackup(w, target).0.mounts, dir) == Success(None)
  {
    var cmds := UnmountCommands(target);
    assert forall k :: 0 <= k < |cmds| ==> cmds[k].ForceUnmount?;
    UnmountWorld(w, target);
    TryAllKeepsUnmounted(w, cmds, dir);
  }

  // ---------------------------------------------------------------------------------------
  // The flag is cleared after the teardown

  /** The corrected end of update() (lines 141-146) clears the flag only after the teardown
      unmount passed with nothing left mounted at the backup directory, and the table stays as
      the teardown left it through the clear, the read-only remount and the marker. */
  lemma ClearAfterTeardown(w: World, nonactive: string, count: nat)
    ensures var t := UnmountRootBackup(w, RootBackup); var f := FinishSteps(w, nonactive, count, Corrected);
      && Extends(w, f.0)
      && (FlagCleared(FlagFile(nonactive, FlagDir)) in Milestones(NewEvents(w, f.0)) ==>
            && t.1 == Pass && MountedAt(t.0.mounts, RootBackup) == Success(None)
            && f.0.mounts == t.0.mounts)
      && (f.1 == Pass ==> t.1 == Pass && f.0.mounts == t.0.mounts)
      && (f.1 == Pass || FlagCleared(FlagFile(nonactive, FlagDir)) in Milestones(NewEvents(w, f.0)) ==>
            MountedAt(f.0.mounts, RootBackup) == Success(None))
  {
    var t := UnmountRootBackup(w, RootBackup);
    UnmountStage(w, RootBackup);
    if t.1.Pass? {
      var k := MarkCleanFixed(t.0, nonactive);
      MarkCleanFixedMilestones(t.0, nonactive);
      MarkCleanFixedOutcome(t.0, nonactive);
      Chain(w, t.0, k.0);
      if k.1.Pass? && count > 0 {
        var f := k.0.(reboot := Some(count), trace := k.0.trace + [WroteMarker(count)]);
        Appended(k.0, f, [WroteMarker(count)]);
        Chain(w, k.0, f);
      }
    }
  }

  /** After `w`, the run `r` ends with nothing mounted at the backup directory if it has
      cleared the non-active partition's flag or succeeded. */
  ghost predicate ClearGuarded(w: World, nonactive: string, r: (World, Outcome))
  {
    && Extends(w, r.0)
    && (r.1 == Pass || FlagCleared(FlagFile(nonactive, FlagDir)) in Milestones(NewEvents(w, r.0)) ==>
          MountedAt(r.0.mounts, RootBackup) == Success(None))
  }

  /** A run that fails before clearing the flag is guarded. */
  lemma GuardedStop(w: World, nonactive: string, r: (World, Outcome))
    requires Extends(w, r.0) && r.1.Fail?
    requires FlagCleared(FlagFile(nonactive, FlagDir)) !in Milestones(NewEvents(w, r.0))
    ensures ClearGuarded(w, nonactive, r)
  {
  }

  /** A step that does not clear the flag keeps a guarded run guarded. */
  lemma GuardedAfter(a: World, b: World, nonactive: string, r: (World, Outcome))
    requires Extends(a, b) && FlagCleared(FlagFile(nonactive, FlagDir)) !in Milestones(NewEvents(a, b))
    requires ClearGuarded(b, nonactive, r)
    ensures ClearGuarded(a, nonactive, r)
  {
    Chain(a, b, r.0);
  }

  /** The corrected upgrade half (lines 139-146) keeps the flag until the teardown is done. */
  lemma UpgradeClearsAfterTeardown(w: World, nonactive: string, up: UpgradeResult)
    ensures ClearGuarded(w, nonactive, UpgradeSteps(w, nonactive, up, Corrected))
  {
    var m := MountRootBackup(w, nonactive, RootBackup);
    MountStage(w, nonactive, RootBackup);
    if m.1.Fail? {
      GuardedStop(w, nonactive, m);
    } else {
      var g := Upgrade(m.0, RootBackup, up);
      UpgradeStage(m.0, RootBackup, up);
      if g.1.None? {
        GuardedStop(m.0, nonactive, (g.0, Fail(UpgradeError)));
        GuardedAfter(w, m.0, nonactive, (g.0, Fail(UpgradeError)));
      } else {
        var f := FinishSteps(g.0, nonactive, g.1.value, Corrected);
        ClearAfterTeardown(g.0, nonactive, g.1.value);
        GuardedAfter(m.0, g.0, nonactive, f);
        GuardedAfter(w, m.0, nonactive, f);
        assert UpgradeSteps(w, nonactive, up, Corrected) == f;
      }
    }
  }

  /** The same for the whole `try` (lines 132-146): the unmount, the clone and mark_dirty
      before the upgrade half never clear the flag. */
  lemma StepsClearAfterTeardown(w: World, active: string, nonactive: string, up: UpgradeResult)
    ensures ClearGuarded(w, nonactive, UpdateSteps(w, active, nonactive, up, Corrected))
  {
    var u := UnmountRootBackup(w, RootBackup);
    UnmountStage(w, RootBackup);
    if u.1.Fail? {
      GuardedStop(w, nonactive, u);
    } else {
      var c := if IsDirty(u.0, nonactive) then Exec(u.0, Copy(active, nonactive)) else (u.0, true);
      if IsDirty(u.0, nonactive) {
        CopyStage(u.0, active, nonactive);
      } else {
        Appended(u.0, c.0, []);
      }
      var s := UpdateSteps(w, active, nonactive, up, Corrected);
      if !c.1 {
        assert s == (c.0, Fail(CommandFailed(Copy(active, nonactive))));
        GuardedStop(u.0, nonactive, s);
      } else {
        var d := MarkDirty(c.0, nonactive);
        MarkDirtyStage(c.0, nonactive);
        if d.1.Fail? {
          assert s == d;
          GuardedStop(c.0, nonactive, s);
        } else {
          assert s == UpgradeSteps(d.0, nonactive, up, Corrected);
          UpgradeClearsAfterTeardown(d.0, nonactive, up);
          GuardedAfter(c.0, d.0, nonactive, s);
        }
        GuardedAfter(u.0, c.0, nonactive, s);
      }
      GuardedAfter(w, u.0, nonactive, s);
    }
  }

  /** update() with both slips corrected never leaves the non-active partition mounted at the
      backup directory without its dirty flag: when it clears the flag, and whenever it
      succeeds, nothing is mounted at the backup directory at the end, the handler's own
      unmount included. */
  lemma FlagOutlivesBackupMount(w: World, up: UpgradeResult)
    ensures var nonactive := RootPartitions(w.mounts).1; var r := Update(w, up, Corrected);
      && Extends(w, r.0)
      && (r.1 == Pass || FlagCleared(FlagFile(nonactive, FlagDir)) in Milestones(NewEvents(w, r.0)) ==>
            MountedAt(r.0.mounts, RootBackup) == Success(None))
  {
    var roles := RootPartitions(w.mounts);
    UpdateGuarded(w, roles.0, roles.1, up);
  }

  /** update() for the roles root_partitions picks: the `try`, then the handler on a failure. */
  lemma UpdateGuarded(w: World, active: string, nonactive: string, up: UpgradeResult)
    requires RootPartitions(w.mounts) == (active, nonactive)
    ensures ClearGuarded(w, nonactive, Update(w, up, Corrected))
  {
    var s := UpdateSteps(w, active, nonactive, up, Corrected);
    StepsClearAfterTeardown(w, active, nonactive, up);
    HandlerGuarded(w, nonactive, s);
    UpdateThroughSteps(w, active, nonactive, up, s);
  }

  /** update() with both slips corrected is its `try`, then the teardown on a failure. */
  lemma UpdateThroughSteps(w: World, active: string, nonactive: string, up: UpgradeResult, s: (World, Outcome))
    requires RootPartitions(w.mounts) == (active, nonactive)
    requires s == UpdateSteps(w, active, nonactive, up, Corrected)
    ensures Update(w, up, Corrected) == if s.1.Pass? then s else (UnmountRootBackup(s.0, RootBackup).0, s.1)
  {
  }

  /** The corrected handler unmounts the backup directory again after a failed `try`. */
  lemma HandlerGuarded(w: World, nonactive: string, s: (World, Outcome))
    requires ClearGuarded(w, nonactive, s)
    ensures ClearGuarded(w, nonactive, if s.1.Pass? then s else (UnmountRootBackup(s.0, RootBackup).0, s.1))
  {
    var h := UnmountRootBackup(s.0, RootBackup).0;
    UnmountStage(s.0, RootBackup);
    if MountedAt(s.0.mounts, RootBackup) == Success(None) {
      UnmountKeepsUnmounted(s.0, RootBackup, RootBackup);
    }
    HandlerKeepsUnmounted(w, nonactive, s, h);
  }

  /** The handler (lines 147-153): on a failure, a teardown that reaches no milestone and keeps
      an unmounted backup directory unmounted, as the corrected unmount_root_backup does,
      keeps the run guarded. */
  lemma HandlerKeepsUnmounted(w: World, nonactive: string, s: (World, Outcome), h: World)
    requires ClearGuarded(w, nonactive, s) && Quiet(s.0, h)
    requires MountedAt(s.0.mounts, RootBackup) == Success(None) ==> MountedAt(h.mounts, RootBackup) == Success(None)
    ensures ClearGuarded(w, nonactive, if s.1.Pass? then s else (h, s.1))
  {
    if s.1.Fail? {
      Chain(w, s.0, h);
    }
  }
}
