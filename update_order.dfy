/** The order in which update() (fruit_update.py:126-153) takes its steps, and what it leaves
    behind when one of them fails: the history of a run is projected onto the steps whose order
    matters (its milestones) and compared with the order the updater is meant to follow. */
module UpdateOrder {

  import opened Wrappers
  import opened Text
  import opened MountTable
  import opened Machine
  import opened UpdateProperties


  datatype Milestone =
    | Cloning(source: string, dest: string)   // dd of the active partition onto the other
    | FlagSet(flag: string)                   // the dirty flag is created
    | Mounting(device: string, dir: string)   // the partition mount is attempted
    | Upgrading(root: string)                 // the package upgrade runs
    | FlagCleared(flag: string)               // the dirty flag is removed
    | MarkerWritten(count: nat)               // the reboot marker is written

  function CommandMilestone(c: Command): seq<Milestone>
  {
    match c
    case Copy(s, d) => [Cloning(s, d)]
    case Mount(d, t) => [Mounting(d, t)]
    case _ => []
  }

  function MilestoneOf(e: Event): seq<Milestone>
  {
    match e
    case Ran(c, _) => CommandMilestone(c)
    case Created(p) => [FlagSet(p)]
    case Removed(p) => [FlagCleared(p)]
    case RanUpgrade(root, _) => [Upgrading(root)]
    case WroteMarker(n) => [MarkerWritten(n)]
    case MadeDir(_) => []
  }

  /** The milestones of a history, in order. */
  function Milestones(t: seq<Event>): seq<Milestone>
  {
    if |t| == 0 then [] else MilestoneOf(t[0]) + Milestones(t[1..])
  }

  lemma {:induction false} MilestonesConcat(a: seq<Event>, b: seq<Event>)
    ensures Milestones(a + b) == Milestones(a) + Milestones(b)
  {
    if |a| > 0 {
      assert (a + b)[0] == a[0] && (a + b)[1..] == a[1..] + b;
      MilestonesConcat(a[1..], b);
    } else {
      assert a + b == b;
    }
  }

  /** Two steps in a row: the history grows and the milestones add up. */
  lemma Chain(a: World, b: World, c: World)
    requires Extends(a, b) && Extends(b, c)
    ensures Extends(a, c)
    ensures Milestones(NewEvents(a, c)) == Milestones(NewEvents(a, b)) + Milestones(NewEvents(b, c))
  {
    ExtendsTrans(a, b, c);
    MilestonesConcat(NewEvents(a, b), NewEvents(b, c));
  }

  /** One step that appends the events `e`. */
  lemma Appended(w: World, w': World, e: seq<Event>)
    requires w'.trace == w.trace + e
    ensures Extends(w, w') && NewEvents(w, w') == e
  {
  }

  /** A command that is neither a clone nor a partition mount reaches no milestone. */
  lemma ExecQuiet(w: World, c: Command)
    requires CommandMilestone(c) == []
    ensures Extends(w, Exec(w, c).0) && Milestones(NewEvents(w, Exec(w, c).0)) == []
  {
    var r := Exec(w, c);
    Appended(w, r.0, [Ran(c, r.1)]);
    assert Milestones([Ran(c, r.1)]) == [];
  }

  /** Commands that are neither a clone nor a partition mount reach no milestone, whether run
      with check_call or with call. */
  lemma {:induction false} QuietCommands(w: World, cmds: seq<Command>)
    requires forall k :: 0 <= k < |cmds| ==> CommandMilestone(cmds[k]) == []
    ensures Extends(w, RunAll(w, cmds).0) && Milestones(NewEvents(w, RunAll(w, cmds).0)) == []
    ensures Extends(w, TryAll(w, cmds)) && Milestones(NewEvents(w, TryAll(w, cmds))) == []
    decreases |cmds|
  {
    if |cmds| == 0 {
      assert NewEvents(w, w) == [];
    } else {
      var r := Exec(w, cmds[0]);
      Appended(w, r.0, [Ran(cmds[0], r.1)]);
      assert Milestones([Ran(cmds[0], r.1)]) == [];
      QuietCommands(r.0, cmds[1..]);
      Chain(w, r.0, TryAll(r.0, cmds[1..]));
      if r.1 {
        Chain(w, r.0, RunAll(r.0, cmds[1..]).0);
      }
    }
  }

  /** unmount_root_backup reaches no milestone. */
  lemma UnmountMilestones(w: World, dir: string)
    ensures Extends(w, UnmountRootBackup(w, dir).0)
    ensures Milestones(NewEvents(w, UnmountRootBackup(w, dir).0)) == []
    ensures UnmountRootBackup(w, dir).0.paths == w.paths && UnmountRootBackup(w, dir).0.reboot == w.reboot
  {
    var cmds := UnmountCommands(dir);
    assert forall k :: 0 <= k < |cmds| ==> cmds[k].ForceUnmount?;
    QuietCommands(w, cmds);
    TryAllUnmounts(w, cmds, dir);
    UnmountWorld(w, dir);
  }

  lemma UnmountWorld(w: World, dir: string)
    ensures UnmountRootBackup(w, dir).0 == TryAll(w, UnmountCommands(dir))
  {
  }

  /** The history mark_dirty leaves: the read-write remount, then, once it succeeds, the flag's
      creation and the read-only remount. */
  lemma MarkDirtyTrace(w: World, device: string)
    ensures MarkDirty(w, device).0.trace == w.trace + [Ran(Remount(ReadWrite, FlagDir), Ok(w.script, 0))] +
      (if Ok(w.script, 0)
       then [Created(FlagFile(device, FlagDir)), Ran(Remount(ReadOnly, FlagDir), Ok(w.script, 1))]
       else [])
  {
    DirnameOfFlagFile(device);
    RestOk(w.script, 0);
  }

  /** The history of a flag update: the read-write remount, then, once it succeeds, the file
      operation `e` and the read-only remount. Only `e` can be a milestone. */
  lemma FlagUpdateMilestones(w: World, w': World, e: Event, ok0: bool, ok1: bool)
    requires e.Created? || e.Removed?
    requires w'.trace == w.trace + [Ran(Remount(ReadWrite, FlagDir), ok0)] +
      (if ok0 then [e, Ran(Remount(ReadOnly, FlagDir), ok1)] else [])
    ensures Extends(w, w') && Milestones(NewEvents(w, w')) == if ok0 then MilestoneOf(e) else []
  {
    var first := Ran(Remount(ReadWrite, FlagDir), ok0);
    if ok0 {
      var last := Ran(Remount(ReadOnly, FlagDir), ok1);
      var t := [first, e, last];
      assert w'.trace == w.trace + t;
      Appended(w, w', t);
      assert [last][1..] == [] && Milestones([last]) == [];
      assert [e, last][1..] == [last] && Milestones([e, last]) == MilestoneOf(e);
      assert t[1..] == [e, last];
    } else {
      Appended(w, w', [first]);
      assert [first][1..] == [];
    }
  }

  /** mark_dirty creates the flag exactly when its first remount succeeds. */
  lemma MarkDirtyMilestones(w: World, device: string)
    ensures Extends(w, MarkDirty(w, device).0)
    ensures Milestones(NewEvents(w, MarkDirty(w, device).0)) ==
      if Ok(w.script, 0) then [FlagSet(FlagFile(device, FlagDir))] else []
  {
    MarkDirtyTrace(w, device);
    FlagUpdateMilestones(w, MarkDirty(w, device).0, Created(FlagFile(device, FlagDir)), Ok(w.script, 0), Ok(w.script, 1));
  }

  /** The history the corrected mark_clean leaves on a dirty device: the read-write remount,
      then, once it succeeds, the flag's removal and the read-only remount. */
  lemma RemovalTrace(w: World, device: string)
    requires IsDirty(w, device)
    ensures MarkCleanFixed(w, device).0.trace == w.trace + [Ran(Remount(ReadWrite, FlagDir), Ok(w.script, 0))] +
      (if Ok(w.script, 0)
       then [Removed(FlagFile(device, FlagDir)), Ran(Remount(ReadOnly, FlagDir), Ok(w.script, 1))]
       else [])
  {
    DirnameOfFlagFile(device);
    RestOk(w.script, 0);
  }

  /** On a dirty device the corrected mark_clean removes the flag exactly when its first remount
      succeeds, and succeeds only then. */
  lemma RemovalEffect(w: World, device: string)
    requires IsDirty(w, device)
    ensures IsDirty(MarkCleanFixed(w, device).0, device) <==> !Ok(w.script, 0)
    ensures MarkCleanFixed(w, device).1 == Pass ==> Ok(w.script, 0)
    ensures MarkCleanFixed(w, device).0.reboot == w.reboot
  {
    DirnameOfFlagFile(device);
    RestOk(w.script, 0);
  }

  /** The corrected mark_clean removes the flag exactly when there is one and its first remount
      succeeds. */
  lemma MarkCleanFixedMilestones(w: World, device: string)
    ensures Extends(w, MarkCleanFixed(w, device).0)
    ensures Milestones(NewEvents(w, MarkCleanFixed(w, device).0)) ==
      if IsDirty(w, device) && Ok(w.script, 0) then [FlagCleared(FlagFile(device, FlagDir))] else []
  {
    if IsDirty(w, device) {
      RemovalTrace(w, device);
      FlagUpdateMilestones(w, MarkCleanFixed(w, device).0, Removed(FlagFile(device, FlagDir)), Ok(w.script, 0), Ok(w.script, 1));
    } else {
      assert NewEvents(w, w) == [];
    }
  }

  /** mount_root_backup always attempts the partition mount, and that is its only milestone. */
  lemma MountRootBackupMilestones(w: World, device: string, dir: string)
    ensures Extends(w, MountRootBackup(w, device, dir).0)
    ensures Milestones(NewEvents(w, MountRootBackup(w, device, dir).0)) == [Mounting(device, dir)]
  {
    var w0 := if dir in w.paths then w else w.(paths := w.paths + {dir}, trace := w.trace + [MadeDir(dir)]);
    if dir in w.paths { Appended(w, w0, []); } else { Appended(w, w0, [MadeDir(dir)]); }
    assert Milestones([MadeDir(dir)]) == [];
    var cmds := MountCommands(device, dir);
    var r := Exec(w0, cmds[0]);
    Appended(w0, r.0, [Ran(cmds[0], r.1)]);
    assert Milestones([Ran(cmds[0], r.1)]) == [Mounting(device, dir)];
    Chain(w, w0, r.0);
    if r.1 {
      QuietCommands(r.0, cmds[1..]);
      Chain(w, r.0, RunAll(r.0, cmds[1..]).0);
    }
  }


  // ---------------------------------------------------------------------------------------
  // What each step of update() contributes

  /** `b` continues the history of `a` without reaching a milestone, and leaves the files and
      the reboot marker as they were. */
  ghost predicate Quiet(a: World, b: World)
  {
    Extends(a, b) && Milestones(NewEvents(a, b)) == [] && b.paths == a.paths && b.reboot == a.reboot
  }

  /** The outcome is not a failure of the partition mount or of the upgrade. */
  predicate NoMountOrUpgradeFailure(o: Outcome)
  {
    o.Fail? ==> !o.failure.MountFailed? && o.failure != UpgradeError
  }

  lemma UnmountStage(w: World, dir: string)
    ensures Quiet(w, UnmountRootBackup(w, dir).0)
    ensures NoMountOrUpgradeFailure(UnmountRootBackup(w, dir).1)
  {
    UnmountMilestones(w, dir);
  }

  lemma CopyStage(w: World, source: string, dest: string)
    ensures var r := Exec(w, Copy(source, dest));
      && Extends(w, r.0) && Milestones(NewEvents(w, r.0)) == [Cloning(source, dest)]
      && r.0.paths == w.paths && r.0.reboot == w.reboot
  {
    var r := Exec(w, Copy(source, dest));
    Appended(w, r.0, [Ran(Copy(source, dest), r.1)]);
    assert Milestones([Ran(Copy(source, dest), r.1)]) == [Cloning(source, dest)];
  }

  lemma MarkDirtyStage(w: World, device: string)
    ensures var d := MarkDirty(w, device);
      && Extends(w, d.0)
      && Milestones(NewEvents(w, d.0)) == (if Ok(w.script, 0) then [FlagSet(FlagFile(device, FlagDir))] else [])
      && (d.1 == Pass ==> Ok(w.script, 0) && IsDirty(d.0, device))
      && d.0.reboot == w.reboot && NoMountOrUpgradeFailure(d.1)
  {
    MarkDirtyMilestones(w, device);
    MarkDirtyOutcome(w, device);
  }

  lemma MountStage(w: World, device: string, dir: string)
    ensures var m := MountRootBackup(w, device, dir);
      && Extends(w, m.0) && Milestones(NewEvents(w, m.0)) == [Mounting(device, dir)]
      && m.0.paths == w.paths + {dir} && m.0.reboot == w.reboot
      && (m.1.Fail? ==> m.1.failure == MountFailed(device, dir))
  {
    MountRootBackupMilestones(w, device, dir);
    MountRootBackupOutcome(w, device, dir);
  }

  lemma UpgradeStage(w: World, root: string, up: UpgradeResult)
    ensures var g := Upgrade(w, root, up);
      && Extends(w, g.0) && Milestones(NewEvents(w, g.0)) == [Upgrading(root)]
      && g.0.paths == w.paths && g.0.reboot == w.reboot
      && g.1 == if up.Upgraded? then Some(up.count) else None
  {
    var g := Upgrade(w, root, up);
    Appended(w, g.0, [RanUpgrade(root, up)]);
    assert Milestones([RanUpgrade(root, up)]) == [Upgrading(root)];
  }

  lemma CleanFixedStage(w: World, device: string)
    requires IsDirty(w, device)
    ensures var k := MarkCleanFixed(w, device);
      && Extends(w, k.0)
      && Milestones(NewEvents(w, k.0)) == (if Ok(w.script, 0) then [FlagCleared(FlagFile(device, FlagDir))] else [])
      && (IsDirty(k.0, device) <==> !Ok(w.script, 0))
      && (k.1 == Pass ==> Ok(w.script, 0))
      && k.0.reboot == w.reboot && NoMountOrUpgradeFailure(k.1)
  {
    MarkCleanFixedMilestones(w, device);
    RemovalEffect(w, device);
  }

  lemma PrefixConcat(p: seq<Milestone>, a: seq<Milestone>, b: seq<Milestone>)
    requires a <= b
    ensures p + a <= p + b
  {
    assert (p + b)[..|p + a|] == p + b[..|a|];
  }

  // ---------------------------------------------------------------------------------------
  // The order of update()

  /** The order update() is meant to follow (lines 139-146) on the upgrade half: mount the
      partition, upgrade it, clear its flag, and write the marker when something was upgraded. */
  function UpgradeOrder(nonactive: string, up: UpgradeResult): seq<Milestone>
  {
    [Mounting(nonactive, RootBackup), Upgrading(RootBackup), FlagCleared(FlagFile(nonactive, FlagDir))] +
    (if up.Upgraded? && up.count > 0 then [MarkerWritten(up.count)] else [])
  }

  /** The whole intended order (lines 132-146): clone a dirty partition, set its flag, then the
      upgrade half. */
  function ExpectedOrder(w: World, active: string, nonactive: string, up: UpgradeResult): seq<Milestone>
  {
    (if IsDirty(w, nonactive) then [Cloning(active, nonactive)] else []) +
    [FlagSet(FlagFile(nonactive, FlagDir))] + UpgradeOrder(nonactive, up)
  }

  /** What the end of update() guarantees, from a dirty partition, once `count` packages were
      upgraded: the flag is cleared before the marker is written; the flag stays until the
      corrected mark_clean removes it (the code as written never does, and so never succeeds);
      the marker is written exactly when everything succeeds and something was upgraded. */
  ghost predicate FinishFacts(w: World, nonactive: string, count: nat, v: Variant, r: (World, Outcome))
  {
    && Extends(w, r.0)
    && var ms := Milestones(NewEvents(w, r.0));
    && ms <= [FlagCleared(FlagFile(nonactive, FlagDir))] + (if count > 0 then [MarkerWritten(count)] else [])
    && (FlagCleared(FlagFile(nonactive, FlagDir)) in ms <==> !IsDirty(r.0, nonactive))
    && (v == AsWritten ==> r.1.Fail?)
    && (r.1 == Pass ==> |ms| == if count > 0 then 2 else 1)
    && r.0.reboot == (if r.1 == Pass && count > 0 then Some(count) else w.reboot)
    && NoMountOrUpgradeFailure(r.1)
  }

  /** The end of update() put together from its steps: the teardown unmount `t`, then the
      mark_clean `k` (clearing the flag when `ok`), then the marker. */
  lemma FinishCombine(w: World, nonactive: string, count: nat, v: Variant,
                      t: (World, Outcome), k: (World, Outcome), ok: bool)
    requires IsDirty(w, nonactive)
    requires Quiet(w, t.0) && NoMountOrUpgradeFailure(t.1)
    requires t.1.Pass? && v == AsWritten ==> k == (t.0, Fail(NotAString))
    requires t.1.Pass? && v == Corrected ==>
      && Extends(t.0, k.0)
      && Milestones(NewEvents(t.0, k.0)) == (if ok then [FlagCleared(FlagFile(nonactive, FlagDir))] else [])
      && (IsDirty(k.0, nonactive) <==> !ok) && (k.1 == Pass ==> ok)
      && k.0.reboot == t.0.reboot && NoMountOrUpgradeFailure(k.1)
    ensures FinishFacts(w, nonactive, count, v,
      if t.1.Fail? then t
      else if k.1.Fail? then k
      else if count > 0 then (k.0.(reboot := Some(count), trace := k.0.trace + [WroteMarker(count)]), Pass)
      else (k.0, Pass))
  {
    if t.1.Fail? {
      TeardownFails(w, nonactive, count, v, t);
    } else if v == AsWritten {
      TeardownFails(w, nonactive, count, v, k);
    } else if k.1.Fail? {
      CleanFails(w, nonactive, count, t.0, k, ok);
    } else {
      CleanPasses(w, nonactive, count, t.0, k, ok);
    }
  }

  /** The end of update() stops at the teardown unmount, or at the mark_clean as written. */
  lemma TeardownFails(w: World, nonactive: string, count: nat, v: Variant, t: (World, Outcome))
    requires IsDirty(w, nonactive)
    requires Quiet(w, t.0) && NoMountOrUpgradeFailure(t.1) && t.1.Fail?
    ensures FinishFacts(w, nonactive, count, v, t)
  {
    assert IsDirty(t.0, nonactive);
  }

  /** The corrected mark_clean fails: the flag is cleared at most, and nothing is written. */
  lemma CleanFails(w: World, nonactive: string, count: nat, t: World, k: (World, Outcome), ok: bool)
    requires Quiet(w, t)
    requires Extends(t, k.0)
    requires Milestones(NewEvents(t, k.0)) == (if ok then [FlagCleared(FlagFile(nonactive, FlagDir))] else [])
    requires (IsDirty(k.0, nonactive) <==> !ok)
    requires k.0.reboot == t.reboot && NoMountOrUpgradeFailure(k.1) && k.1.Fail?
    ensures FinishFacts(w, nonactive, count, Corrected, k)
  {
    Chain(w, t, k.0);
  }

  /** The corrected mark_clean succeeds: the flag is cleared, then the marker is written when
      something was upgraded. */
  lemma CleanPasses(w: World, nonactive: string, count: nat, t: World, k: (World, Outcome), ok: bool)
    requires Quiet(w, t)
    requires Extends(t, k.0)
    requires Milestones(NewEvents(t, k.0)) == (if ok then [FlagCleared(FlagFile(nonactive, FlagDir))] else [])
    requires (IsDirty(k.0, nonactive) <==> !ok) && ok
    requires k.0.reboot == t.reboot && k.1 == Pass
    ensures FinishFacts(w, nonactive, count, Corrected,
      if count > 0 then (k.0.(reboot := Some(count), trace := k.0.trace + [WroteMarker(count)]), Pass)
      else (k.0, Pass))
  {
    Chain(w, t, k.0);
    var flag := FlagFile(nonactive, FlagDir);
    assert Milestones(NewEvents(w, k.0)) == [FlagCleared(flag)];
    if count > 0 {
      CleanThenMarker(w, nonactive, count, k.0);
    }
  }

  /** After the flag is cleared, writing the marker adds its milestone and changes no file. */
  lemma CleanThenMarker(w: World, nonactive: string, count: nat, k: World)
    requires count > 0 && Extends(w, k) && !IsDirty(k, nonactive)
    requires Milestones(NewEvents(w, k)) == [FlagCleared(FlagFile(nonactive, FlagDir))]
    ensures FinishFacts(w, nonactive, count, Corrected,
      (k.(reboot := Some(count), trace := k.trace + [WroteMarker(count)]), Pass))
  {
    var w' := k.(reboot := Some(count), trace := k.trace + [WroteMarker(count)]);
    Appended(k, w', [WroteMarker(count)]);
    assert Milestones([WroteMarker(count)]) == [MarkerWritten(count)];
    Chain(w, k, w');
    assert w'.paths == k.paths;
    assert Milestones(NewEvents(w, w')) == [FlagCleared(FlagFile(nonactive, FlagDir))] + [MarkerWritten(count)];
  }

  lemma FinishStepsOrder(w: World, nonactive: string, count: nat, v: Variant)
    requires IsDirty(w, nonactive)
    ensures FinishFacts(w, nonactive, count, v, FinishSteps(w, nonactive, count, v))
  {
    var t := UnmountRootBackup(w, TeardownDir(v, nonactive));
    var k := if v == AsWritten then MarkClean(t.0, nonactive) else MarkCleanFixed(t.0, nonactive);
    UnmountStage(w, TeardownDir(v, nonactive));
    if t.1.Pass? {
      if v == AsWritten {
        MarkCleanAsWritten(t.0, nonactive);
      } else {
        CleanFixedStage(t.0, nonactive);
      }
    }
    FinishCombine(w, nonactive, count, v, t, k, Ok(t.0.script, 0));
  }

  /** What the upgrade half of update() guarantees from a dirty partition: it attempts the
      mount first and keeps to the intended order as far as it gets; a failed mount or upgrade
      leaves the flag set; the flag is gone exactly when it has been cleared. */
  ghost predicate UpgradeFacts(w: World, nonactive: string, up: UpgradeResult, v: Variant, r: (World, Outcome))
  {
    && Extends(w, r.0)
    && var ms := Milestones(NewEvents(w, r.0));
    && 1 <= |ms| && ms <= UpgradeOrder(nonactive, up)
    && (FlagCleared(FlagFile(nonactive, FlagDir)) in ms <==> !IsDirty(r.0, nonactive))
    && (!NoMountOrUpgradeFailure(r.1) ==> IsDirty(r.0, nonactive))
    && (v == AsWritten ==> r.1.Fail?)
    && (r.1 == Pass ==> ms == UpgradeOrder(nonactive, up))
    && r.0.reboot == (if r.1 == Pass && up.Upgraded? && up.count > 0 then Some(up.count) else w.reboot)
  }

  /** The upgrade half put together from its steps: the mount `m`, the upgrade `g`, and the end
      `r` of update(). */
  lemma UpgradeCombine(w: World, nonactive: string, up: UpgradeResult, v: Variant,
                       m: (World, Outcome), g: (World, Option<nat>), r: (World, Outcome))
    requires IsDirty(w, nonactive)
    requires Extends(w, m.0) && Milestones(NewEvents(w, m.0)) == [Mounting(nonactive, RootBackup)]
    requires m.0.paths == w.paths + {RootBackup} && m.0.reboot == w.reboot
    requires m.1.Fail? ==> m.1.failure == MountFailed(nonactive, RootBackup)
    requires m.1.Pass? ==>
      && Extends(m.0, g.0) && Milestones(NewEvents(m.0, g.0)) == [Upgrading(RootBackup)]
      && g.0.paths == m.0.paths && g.0.reboot == m.0.reboot
      && g.1 == (if up.Upgraded? then Some(up.count) else None)
    requires m.1.Pass? && g.1.Some? ==> FinishFacts(g.0, nonactive, g.1.value, v, r)
    ensures UpgradeFacts(w, nonactive, up, v,
      if m.1.Fail? then m else if g.1.None? then (g.0, Fail(UpgradeError)) else r)
  {
    if m.1.Fail? {
      MountFails(w, nonactive, up, v, m);
    } else {
      Chain(w, m.0, g.0);
      if g.1.None? {
        UpgradeFails(w, nonactive, up, v, g.0);
      } else {
        UpgradeGoesOn(w, nonactive, up, v, g.0, r);
      }
    }
  }

  /** A failed mount ends the upgrade half right after it, with the flag still set. */
  lemma MountFails(w: World, nonactive: string, up: UpgradeResult, v: Variant, m: (World, Outcome))
    requires IsDirty(w, nonactive)
    requires Extends(w, m.0) && Milestones(NewEvents(w, m.0)) == [Mounting(nonactive, RootBackup)]
    requires m.0.paths == w.paths + {RootBackup} && m.0.reboot == w.reboot
    requires m.1 == Fail(MountFailed(nonactive, RootBackup))
    ensures UpgradeFacts(w, nonactive, up, v, m)
  {
    assert IsDirty(m.0, nonactive);
    assert UpgradeOrder(nonactive, up)[..1] == [Mounting(nonactive, RootBackup)];
  }

  /** A failed upgrade ends the upgrade half right after it, with the flag still set. */
  lemma UpgradeFails(w: World, nonactive: string, up: UpgradeResult, v: Variant, g: World)
    requires IsDirty(w, nonactive)
    requires Extends(w, g) && Milestones(NewEvents(w, g)) == [Mounting(nonactive, RootBackup), Upgrading(RootBackup)]
    requires g.paths == w.paths + {RootBackup} && g.reboot == w.reboot
    ensures UpgradeFacts(w, nonactive, up, v, (g, Fail(UpgradeError)))
  {
    assert IsDirty(g, nonactive);
    assert UpgradeOrder(nonactive, up)[..2] == [Mounting(nonactive, RootBackup), Upgrading(RootBackup)];
  }

  /** A successful upgrade goes on to the end of update(). */
  lemma UpgradeGoesOn(w: World, nonactive: string, up: UpgradeResult, v: Variant, g: World, r: (World, Outcome))
    requires Extends(w, g) && Milestones(NewEvents(w, g)) == [Mounting(nonactive, RootBackup), Upgrading(RootBackup)]
    requires g.reboot == w.reboot && up.Upgraded?
    requires FinishFacts(g, nonactive, up.count, v, r)
    ensures UpgradeFacts(w, nonactive, up, v, r)
  {
    Chain(w, g, r.0);
    var head := [Mounting(nonactive, RootBackup), Upgrading(RootBackup)];
    var tail := [FlagCleared(FlagFile(nonactive, FlagDir))] + (if up.count > 0 then [MarkerWritten(up.count)] else []);
    assert UpgradeOrder(nonactive, up) == head + tail;
    assert Milestones(NewEvents(w, r.0)) == head + Milestones(NewEvents(g, r.0));
    PrefixConcat(head, Milestones(NewEvents(g, r.0)), tail);
  }

  lemma UpgradeStepsOrder(w: World, nonactive: string, up: UpgradeResult, v: Variant)
    requires IsDirty(w, nonactive)
    ensures UpgradeFacts(w, nonactive, up, v, UpgradeSteps(w, nonactive, up, v))
  {
    var m := MountRootBackup(w, nonactive, RootBackup);
    var g := Upgrade(m.0, RootBackup, up);
    var r := if g.1.Some? then FinishSteps(g.0, nonactive, g.1.value, v) else (g.0, Pass);
    MountStage(w, nonactive, RootBackup);
    UpgradeStage(m.0, RootBackup, up);
    if g.1.Some? {
      FinishStepsOrder(g.0, nonactive, g.1.value, v);
    }
    UpgradeCombine(w, nonactive, up, v, m, g, r);
  }

  /** What update()'s `try` guarantees for given roles, when its first unmount succeeded
      (`cleared`): it keeps to the intended order as far as it gets, and the clone is attempted
      exactly when the non-active partition is dirty; it reaches no milestone at all otherwise.
      Once the mount has been attempted the flag stays set until it is cleared; a failed mount
      or upgrade leaves it set; the code as written never succeeds; the marker is written
      exactly when everything succeeds and something was upgraded. */
  ghost predicate UpdateFacts(w: World, active: string, nonactive: string, up: UpgradeResult, v: Variant,
                              cleared: bool, r: (World, Outcome))
  {
    && Extends(w, r.0)
    && var ms := Milestones(NewEvents(w, r.0));
    && ms <= ExpectedOrder(w, active, nonactive, up)
    && (!cleared ==> ms == [])
    && (cleared && IsDirty(w, nonactive) ==> 1 <= |ms|)
    && (Mounting(nonactive, RootBackup) in ms && FlagCleared(FlagFile(nonactive, FlagDir)) !in ms ==>
          IsDirty(r.0, nonactive))
    && (!NoMountOrUpgradeFailure(r.1) ==> IsDirty(r.0, nonactive))
    && (v == AsWritten ==> r.1.Fail?)
    && (r.1 == Pass ==> ms == ExpectedOrder(w, active, nonactive, up))
    && r.0.reboot == (if r.1 == Pass && up.Upgraded? && up.count > 0 then Some(up.count) else w.reboot)
  }

  /** The clone step on its own: from `w`, with the backup directory cleared, the clone is
      attempted exactly when the partition is dirty. */
  ghost predicate ClonedFrom(w: World, active: string, nonactive: string, c: World)
  {
    && Extends(w, c)
    && Milestones(NewEvents(w, c)) == (if IsDirty(w, nonactive) then [Cloning(active, nonactive)] else [])
    && c.paths == w.paths && c.reboot == w.reboot
  }

  /** mark_dirty on its own: the flag is set when `ok`, and success means it is set. */
  ghost predicate MarkedFrom(c: World, nonactive: string, d: (World, Outcome), ok: bool)
  {
    && Extends(c, d.0)
    && Milestones(NewEvents(c, d.0)) == (if ok then [FlagSet(FlagFile(nonactive, FlagDir))] else [])
    && (d.1 == Pass ==> ok && IsDirty(d.0, nonactive))
    && d.0.reboot == c.reboot && NoMountOrUpgradeFailure(d.1)
  }

  /** A failed clone ends the `try` right after it. */
  lemma CloneFails(w: World, active: string, nonactive: string, up: UpgradeResult, v: Variant, c: World)
    requires ClonedFrom(w, active, nonactive, c)
    ensures UpdateFacts(w, active, nonactive, up, v, true, (c, Fail(CommandFailed(Copy(active, nonactive)))))
  {
    var flag := FlagFile(nonactive, FlagDir);
    var clone := if IsDirty(w, nonactive) then [Cloning(active, nonactive)] else [];
    assert ExpectedOrder(w, active, nonactive, up) == clone + [FlagSet(flag)] + UpgradeOrder(nonactive, up);
    StopsAtFlag(clone, [], flag, UpgradeOrder(nonactive, up), Mounting(nonactive, RootBackup));
    assert clone + [] == clone;
  }

  /** A failed mark_dirty ends the `try` before the mount is attempted. */
  lemma MarkDirtyFails(w: World, active: string, nonactive: string, up: UpgradeResult, v: Variant,
                       c: World, d: (World, Outcome), ok: bool)
    requires ClonedFrom(w, active, nonactive, c) && MarkedFrom(c, nonactive, d, ok) && d.1.Fail?
    ensures UpdateFacts(w, active, nonactive, up, v, true, d)
  {
    var flag := FlagFile(nonactive, FlagDir);
    var clone := if IsDirty(w, nonactive) then [Cloning(active, nonactive)] else [];
    assert ExpectedOrder(w, active, nonactive, up) == clone + [FlagSet(flag)] + UpgradeOrder(nonactive, up);
    Chain(w, c, d.0);
    var marked := Milestones(NewEvents(c, d.0));
    assert Milestones(NewEvents(w, d.0)) == clone + marked;
    assert marked <= [FlagSet(flag)];
    StopsAtFlag(clone, marked, flag, UpgradeOrder(nonactive, up), Mounting(nonactive, RootBackup));
    assert d.0.reboot == w.reboot;
  }

  /** History that stops at the flag, or before it, is a prefix of an order that goes on past
      the flag, and holds no later milestone. */
  lemma StopsAtFlag(clone: seq<Milestone>, marked: seq<Milestone>, flag: string, tail: seq<Milestone>, m: Milestone)
    requires marked <= [FlagSet(flag)]
    requires m !in clone && !m.FlagSet?
    ensures clone + marked <= clone + [FlagSet(flag)] + tail
    ensures m !in clone + marked
  {
    assert marked <= [FlagSet(flag)] + tail;
    PrefixConcat(clone, marked, [FlagSet(flag)] + tail);
    assert clone + ([FlagSet(flag)] + tail) == clone + [FlagSet(flag)] + tail;
  }

  /** A successful mark_dirty goes on to the upgrade half. */
  lemma MarkDirtyPasses(w: World, active: string, nonactive: string, up: UpgradeResult, v: Variant,
                        c: World, d: (World, Outcome), ok: bool, r: (World, Outcome))
    requires ClonedFrom(w, active, nonactive, c) && MarkedFrom(c, nonactive, d, ok) && d.1.Pass?
    requires UpgradeFacts(d.0, nonactive, up, v, r)
    ensures UpdateFacts(w, active, nonactive, up, v, true, r)
  {
    var flag := FlagFile(nonactive, FlagDir);
    var clone := if IsDirty(w, nonactive) then [Cloning(active, nonactive)] else [];
    assert ExpectedOrder(w, active, nonactive, up) == clone + [FlagSet(flag)] + UpgradeOrder(nonactive, up);
    Chain(w, c, d.0);
    Chain(w, d.0, r.0);
    var tail := Milestones(NewEvents(d.0, r.0));
    assert Milestones(NewEvents(w, r.0)) == clone + [FlagSet(flag)] + tail;
    PrefixConcat(clone + [FlagSet(flag)], tail, UpgradeOrder(nonactive, up));
  }

  lemma UpdateStepsOrder(w: World, active: string, nonactive: string, up: UpgradeResult, v: Variant)
    ensures UpdateFacts(w, active, nonactive, up, v, UnmountRootBackup(w, RootBackup).1.Pass?,
                        UpdateSteps(w, active, nonactive, up, v))
  {
    var u := UnmountRootBackup(w, RootBackup);
    UnmountStage(w, RootBackup);
    if u.1.Pass? {
      var c := if IsDirty(u.0, nonactive) then Exec(u.0, Copy(active, nonactive)) else (u.0, true);
      if IsDirty(u.0, nonactive) {
        CopyStage(u.0, active, nonactive);
      } else {
        assert NewEvents(u.0, c.0) == [];
      }
      Chain(w, u.0, c.0);
      assert ClonedFrom(w, active, nonactive, c.0);
      if !c.1 {
        CloneFails(w, active, nonactive, up, v, c.0);
      } else {
        var d := MarkDirty(c.0, nonactive);
        MarkDirtyStage(c.0, nonactive);
        if d.1.Fail? {
          MarkDirtyFails(w, active, nonactive, up, v, c.0, d, Ok(c.0.script, 0));
        } else {
          UpgradeStepsOrder(d.0, nonactive, up, v);
          MarkDirtyPasses(w, active, nonactive, up, v, c.0, d, Ok(c.0.script, 0), UpgradeSteps(d.0, nonactive, up, v));
        }
      }
    }
  }

  /** The handler of update() (lines 147-153): on a failure, a teardown unmount that reaches no
      milestone and changes no file does not change what the run guarantees. */
  lemma HandlerCombine(w: World, active: string, nonactive: string, up: UpgradeResult, v: Variant,
                       cleared: bool, r: (World, Outcome), h: World)
    requires UpdateFacts(w, active, nonactive, up, v, cleared, r) && Quiet(r.0, h)
    ensures UpdateFacts(w, active, nonactive, up, v, cleared, if r.1.Pass? then r else (h, r.1))
  {
    if r.1.Fail? {
      Chain(w, r.0, h);
    }
  }

  /** Everything update() guarantees, for the roles root_partitions picks. */
  lemma UpdateFactsHold(w: World, up: UpgradeResult, v: Variant)
    ensures var (active, nonactive) := RootPartitions(w.mounts);
      UpdateFacts(w, active, nonactive, up, v, UnmountRootBackup(w, RootBackup).1.Pass?, Update(w, up, v))
  {
    var (active, nonactive) := RootPartitions(w.mounts);
    var r := UpdateSteps(w, active, nonactive, up, v);
    UpdateStepsOrder(w, active, nonactive, up, v);
    UnmountStage(r.0, TeardownDir(v, nonactive));
    HandlerCombine(w, active, nonactive, up, v, UnmountRootBackup(w, RootBackup).1.Pass?, r,
                   UnmountRootBackup(r.0, TeardownDir(v, nonactive)).0);
  }

  // ---------------------------------------------------------------------------------------
  // What update() promises

  /** update() keeps to the intended order as far as it gets, and a successful run goes
      through all of it. */
  lemma UpdateKeepsOrder(w: World, up: UpgradeResult, v: Variant)
    ensures var (active, nonactive) := RootPartitions(w.mounts); var r := Update(w, up, v);
      && Extends(w, r.0)
      && Milestones(NewEvents(w, r.0)) <= ExpectedOrder(w, active, nonactive, up)
      && (r.1 == Pass ==> Milestones(NewEvents(w, r.0)) == ExpectedOrder(w, active, nonactive, up))
  {
    UpdateFactsHold(w, up, v);
  }

  /** In a run that keeps to the intended order and starts with the backup directory cleared,
      the clone is attempted exactly when the partition is dirty, and then first, right before
      the flag is set. */
  lemma CloneInOrder(w: World, active: string, nonactive: string, up: UpgradeResult, v: Variant, r: (World, Outcome))
    requires UpdateFacts(w, active, nonactive, up, v, true, r)
    ensures var ms := Milestones(NewEvents(w, r.0));
      && (Cloning(active, nonactive) in ms <==> IsDirty(w, nonactive))
      && (Cloning(active, nonactive) in ms ==>
            ms[0] == Cloning(active, nonactive) && (|ms| > 1 ==> ms[1] == FlagSet(FlagFile(nonactive, FlagDir))))
  {
    var ms := Milestones(NewEvents(w, r.0));
    var e := ExpectedOrder(w, active, nonactive, up);
    assert ms == e[..|ms|];
    if IsDirty(w, nonactive) {
      assert ms[0] == e[0];
    } else {
      assert Cloning(active, nonactive) !in e;
    }
  }

  /** Once the backup directory is cleared, the clone of the active partition onto the other is
      attempted exactly when the other is dirty, and it comes first, right before mark_dirty. */
  lemma CloneExactlyWhenDirty(w: World, up: UpgradeResult, v: Variant)
    requires UnmountRootBackup(w, RootBackup).1.Pass?
    ensures var (active, nonactive) := RootPartitions(w.mounts); var r := Update(w, up, v);
      && Extends(w, r.0)
      && var ms := Milestones(NewEvents(w, r.0));
      && (Cloning(active, nonactive) in ms <==> IsDirty(w, nonactive))
      && (Cloning(active, nonactive) in ms ==>
            ms[0] == Cloning(active, nonactive) && (|ms| > 1 ==> ms[1] == FlagSet(FlagFile(nonactive, FlagDir))))
  {
    var (active, nonactive) := RootPartitions(w.mounts);
    UpdateFactsHold(w, up, v);
    CloneInOrder(w, active, nonactive, up, v, Update(w, up, v));
  }

  /** In a run that keeps to the intended order, the flag's creation precedes the mount. */
  lemma FlagBeforeMountInOrder(w: World, active: string, nonactive: string, up: UpgradeResult, v: Variant,
                               cleared: bool, r: (World, Outcome))
    requires UpdateFacts(w, active, nonactive, up, v, cleared, r)
    ensures var ms := Milestones(NewEvents(w, r.0));
      forall i :: 0 <= i < |ms| && ms[i] == Mounting(nonactive, RootBackup) ==>
        FlagSet(FlagFile(nonactive, FlagDir)) in ms[..i]
  {
    var ms := Milestones(NewEvents(w, r.0));
    var e := ExpectedOrder(w, active, nonactive, up);
    var n := if IsDirty(w, nonactive) then 1 else 0;
    assert ms == e[..|ms|];
    forall i | 0 <= i < |ms| && ms[i] == Mounting(nonactive, RootBackup)
      ensures FlagSet(FlagFile(nonactive, FlagDir)) in ms[..i]
    {
      assert e[i] == ms[i];
      assert i > n;
      assert ms[..i][n] == e[n];
    }
  }

  /** The flag is set before the partition mount is attempted: wherever the mount shows up in
      the history, the flag's creation precedes it. */
  lemma FlagBeforeMount(w: World, up: UpgradeResult, v: Variant)
    ensures var (active, nonactive) := RootPartitions(w.mounts); var r := Update(w, up, v);
      && Extends(w, r.0)
      && var ms := Milestones(NewEvents(w, r.0));
      && forall i :: 0 <= i < |ms| && ms[i] == Mounting(nonactive, RootBackup) ==>
           FlagSet(FlagFile(nonactive, FlagDir)) in ms[..i]
  {
    var (active, nonactive) := RootPartitions(w.mounts);
    UpdateFactsHold(w, up, v);
    FlagBeforeMountInOrder(w, active, nonactive, up, v, UnmountRootBackup(w, RootBackup).1.Pass?, Update(w, up, v));
  }

  /** Once the partition mount has been attempted, the flag stays set unless it was cleared
      afterwards; in particular a failed mount, a failed upgrade, or any failure after them
      short of the flag's removal leaves the partition marked dirty. */
  lemma FlagKeptOnFailure(w: World, up: UpgradeResult, v: Variant)
    ensures var (active, nonactive) := RootPartitions(w.mounts); var r := Update(w, up, v);
      && Extends(w, r.0)
      && var ms := Milestones(NewEvents(w, r.0));
      && (Mounting(nonactive, RootBackup) in ms && FlagCleared(FlagFile(nonactive, FlagDir)) !in ms ==>
            IsDirty(r.0, nonactive))
      && (r.1.Fail? && (r.1.failure.MountFailed? || r.1.failure == UpgradeError) ==> IsDirty(r.0, nonactive))
  {
    UpdateFactsHold(w, up, v);
  }

  /** The reboot marker is written exactly when the run succeeds with something upgraded, and
      then it holds the count. */
  lemma MarkerExactlyWhenUpgraded(w: World, up: UpgradeResult, v: Variant)
    ensures var r := Update(w, up, v);
      r.0.reboot == if r.1 == Pass && up.Upgraded? && up.count > 0 then Some(up.count) else w.reboot
  {
    UpdateFactsHold(w, up, v);
  }

  /** As written, update() never succeeds: mark_clean raises on the flag mark_dirty set, and
      so the reboot marker is never written. */
  lemma AsWrittenNeverSucceeds(w: World, up: UpgradeResult)
    ensures Update(w, up, AsWritten).1.Fail?
    ensures Update(w, up, AsWritten).0.reboot == w.reboot
  {
    UpdateFactsHold(w, up, AsWritten);
  }
}
