# fruit-agent: the A/B root updater and the layered configuration

The fruit agent runs on a Raspberry Pi with two root partitions, `/dev/mmcblk0p2` and
`/dev/mmcblk0p3`. One partition is the active root. It is mounted read-only at
`/media/root-ro`. `fruit_update.py` upgrades the packages of the other, non-active partition
while the device keeps running, in these steps:

1. It clears `/media/root-backup`.
2. If the non-active partition is dirty, it clones the active partition onto it.
3. It marks the non-active partition dirty. A dirty flag is a file on the boot partition
   `/media/mmcblk0p1`.
4. It mounts the partition at `/media/root-backup`, together with `proc`, `/sys` and `/dev`.
5. It runs the package upgrade there.
6. It unmounts the partition again and marks it clean.
7. It leaves a reboot marker when anything was upgraded.

The agent reads its configuration through
`share/fruit/python/fruit/agent/config.py`. A list of JSON config files is loaded once into a
module-level cache. A lookup by JSON Pointer (RFC 6901) returns the value from the first file
that has one.

The Dafny project models both components:

- **`Machine`** (machine.dfy) models the updater as a state machine over a single value, the
  `World`. The `World` holds:
  - the mount table;
  - the paths that exist;
  - the mode of the flag partition;
  - the contents of each block device;
  - the reboot marker;
  - the environment's exit statuses for the commands still to run;
  - the trace of everything done so far.

  Every function of the script is a function on `World`. Where the script has a slip, the
  `Variant` selects either the code as written or the corrected code.
- **`Host`** (host.dfy) holds the same state as fields of a class. Each method there changes
  the state step by step. Each method is proved to equal its `Machine` function, so everything
  proved about `Machine` also holds for these methods.
- **`MountTable`** (mount_table.dfy) models `mounted_at` over `/proc/mounts`, and the table
  edits that `mount` and `umount` make.
- **`UpdateProperties`**, **`UpdateOrder`**, **`UpdateRuns`** and **`UpdateTeardown`** hold the
  properties. They cover:
  - the outcome of each step;
  - the order update() keeps: clone, flag, mount, upgrade, clear the flag, marker;
  - the flag's lifetime, which outlasts the backup mount;
  - whole runs in a healthy environment, for the corrected code and for the code as written.
- **`Json`**, **`Decimal`** and **`JsonPointer`** (json.dfy, decimal.dfy, pointer.dfy) model
  `_get`: JSON Pointer evaluation as in sections 3 and 4 of RFC 6901, with Python's list
  indexing and `int(s, 10)`. `JsonPointer.Get` is the loop itself. `JsonPointer.Eval` is its
  specification.
- **`Config`** (config.dfy) models the cache as class `Cache`, with `get` and `clear_cache`.
  It also defines the ordered first-hit search, which gives the layering of config files.
- **`Wrappers`** and **`Text`** (text.dfy) hold the `Option` and `Result` types and the string
  operations the source uses: `split`, `replace`, `os.path.join`, `os.path.dirname` and
  `str.split(" ", 2)`.

External commands (`mount`, `umount -f`, `dd`) and the package upgrade become transitions.
Each command takes its exit status from the next entry of `script`; an exhausted script means
success. `umount -f X` succeeds only when X is a mount point in the table, and then takes off
the latest mount there. `dd` needs both devices to exist. The config files on disk are a parameter of `Cache.Get`: a map from file name to
`Loaded(blob)` or `Unloadable`, where a missing key means the file does not exist. The list of
config files is a parameter too.

The code and its intent diverge in two places. The model follows the code as written and
proves what the corrected code does (see "## Findings").

## Model

| member | source | states |
|---|---|---|
| MountTable.MountedAtMeaning | fruit_update.py:13-23 | mounted_at is decided by the first line where the scan stops. If no line stops it, the result is None. If that line does not unpack into three fields, the call raises. Otherwise the result is the device of that line. |
| MountTable.MountedAtNone | fruit_update.py:13-23 | mounted_at returns None exactly when every line unpacks and no line is mounted at the directory. |
| MountTable.StopIndex | fruit_update.py:19-22 | Every line before the stopping point unpacks and is mounted elsewhere. The line at the stopping point either does not unpack or is mounted at the directory. |
| MountTable.MountedAtAppend | fruit_update.py:13-23 | A line appended to the table changes mounted_at only when no earlier line decides it. |
| MountTable.MountLineFields | fruit_update.py:20 | A line written for a mount unpacks back into its device and mount point. |
| Text.Fields3Spec | fruit_update.py:20 | `line.split(" ", 2)` gives three fields exactly when the line has at least two spaces. The first two fields contain no space. |
| Text.Fields3OfLine | fruit_update.py:20 | Joining three fields with spaces, where the first two fields contain no space, and splitting again gives back the fields. |
| MountTable.LastAtSpec | fruit_update.py:94 | The mount that `umount` takes off is one at its target with none later. There is no such mount exactly when nothing is mounted at the target. |
| MountTable.LastAtAppended | fruit_update.py:94 | Unmounting a target takes off the line just mounted there, and gives back the table as it was before. |
| MountTable.LastAtAppendedElsewhere | fruit_update.py:94 | A mount at another target does not change which line an unmount takes off. |
| MountTable.RemoveKeepsUnmounted | fruit_update.py:94-95 | Taking a line off a table with nothing at a directory keeps that directory unmounted. |
| Machine.RootPartitions | fruit_update.py:26-36 | The pair is always two distinct devices, p2 and p3 in some order. p3 is active exactly when mounted_at finds p3 at the read-only root. A raise inside mounted_at falls back to the default. |
| UpdateProperties.RootPartitionsMeaning | fruit_update.py:26-36 | p3 is active exactly when the first line the scan stops at unpacks and carries p3. |
| UpdateProperties.FlagFileShape | fruit_update.py:39-40 | The flag of a device is the boot partition's directory, a slash, the device path with every `/` turned into `.`, then `.dirty`. |
| UpdateProperties.DirnameOfFlagFile | fruit_update.py:52 | `os.path.dirname` of the flag is the boot partition's directory. This is the directory mark_dirty remounts. |
| UpdateProperties.FlagFileInjective | fruit_update.py:39-40 | Two devices without dots in their paths have the same flag exactly when they are the same device. |
| UpdateProperties.KnownFlagsDistinct | fruit_update.py:39-44 | The two root partitions have different flags, so isdirty of one says nothing about the other. |
| Text.JoinSplit | share/fruit/python/fruit/agent/config.py:20 | `split` loses nothing: joining the pieces with the separator gives back the string. |
| Text.SplitJoin | share/fruit/python/fruit/agent/config.py:20 | Pieces without the separator, joined and split again, come back unchanged. |
| Text.ReplaceCharSpec | fruit_update.py:40 | `replace("/", ".")` changes every `/` and nothing else. |
| UpdateProperties.MarkDirtyOutcome | fruit_update.py:47-56 | mark_dirty succeeds exactly when both remounts succeed. A failed first remount raises and creates nothing. Once the first remount succeeds the flag exists. A failed second remount raises on the read-only remount. Success leaves the device dirty and the boot partition read-only. The mount table, the images and the marker stay as they were. |
| UpdateProperties.MarkCleanAsWritten | fruit_update.py:59-67 | mark_clean as written changes nothing. It raises exactly when the device is dirty, because line 65 hands the builtin `dir` to check_call. |
| UpdateProperties.MarkCleanFixedOutcome | fruit_update.py:59-67 | The corrected mark_clean does nothing for a clean device. For a dirty device it succeeds exactly when both remounts succeed. Once the first remount succeeds the flag is gone. Success leaves the device clean and the boot partition read-only. Nothing else changes. |
| UpdateProperties.MountRootBackupOutcome | fruit_update.py:70-83 | mount_root_backup creates the directory and runs the four mounts until the first one fails. The table gains exactly the lines of the mounts that succeeded, in order. The trace records exactly the mounts attempted. It succeeds exactly when all four mounts succeed, and otherwise raises "Failed mounting" for this device and directory. |
| UpdateProperties.RunAllMounts | fruit_update.py:78-81 | A run of mount commands appends the lines of the commands that succeeded before the first failure and changes nothing else. It succeeds exactly when every command succeeds. |
| UpdateProperties.RunAllCommands | fruit_update.py:78-81 | A run of check_call commands reaches exactly up to and including the first failing command. |
| UpdateProperties.UnmountRootBackupOutcome | fruit_update.py:86-96 | unmount_root_backup attempts all four forced unmounts, whatever their status. It succeeds exactly when mounted_at then finds nothing at the directory. It always succeeds when nothing was mounted there to begin with. The files, images, marker and boot-partition mode stay as they were. |
| UpdateProperties.TryAllUnmounts | fruit_update.py:93-94 | Forced unmounts attempted with `call` all run, whatever their status. An unmounted directory stays unmounted, and nothing but the table changes. |
| UpdateRuns.UnmountUndoesMount | fruit_update.py:86-96 | When everything succeeds, the four forced unmounts take off the four backup mounts, last first. The table ends as it was before mount_root_backup. |
| UpdateRuns.UnmountNothing | fruit_update.py:86-96 | Forced unmounts under a directory where nothing is mounted change nothing. |
| UpdateOrder.UpdateKeepsOrder | fruit_update.py:125-153 | The steps update() takes are always a prefix of the intended order: clone if dirty, set the flag, mount, upgrade, clear the flag, then the marker if anything was upgraded. A successful run takes all of them. |
| UpdateOrder.ExpectedOrder | fruit_update.py:132-146 | The intended order of update()'s milestones: the clone when the partition is dirty, the flag, then the upgrade half. |
| UpdateOrder.UpgradeOrder | fruit_update.py:139-146 | The upgrade half of the order: mount, upgrade, clear the flag, then the marker when the count is positive. |
| UpdateOrder.CloneExactlyWhenDirty | fruit_update.py:132-138 | Once the backup directory is cleared, the clone of the active partition is attempted exactly when the non-active one is dirty. The clone comes first, right before the flag is set. |
| UpdateOrder.CloneInOrder | fruit_update.py:134-138 | In any run that keeps the intended order from a cleared backup directory, the clone is attempted exactly when the partition is dirty, and comes first, before the flag. |
| UpdateOrder.FlagBeforeMount | fruit_update.py:138-139 | Wherever the mount of the non-active partition appears in the history, the flag was set before it. |
| UpdateOrder.FlagBeforeMountInOrder | fruit_update.py:138-139 | In any run that keeps the intended order, the flag precedes the mount. |
| UpdateOrder.FlagKeptOnFailure | fruit_update.py:138-153 | Once the mount has been attempted, the partition stays dirty unless its flag was cleared afterwards. A failed mount or a failed upgrade therefore leaves it dirty. |
| UpdateOrder.MarkerExactlyWhenUpgraded | fruit_update.py:144-146 | The reboot marker is written exactly when the run succeeds with a positive count, and then it holds that count. Otherwise the marker is unchanged. |
| UpdateOrder.AsWrittenNeverSucceeds | fruit_update.py:142 | For every upgrade outcome, including a successful one, update() as written fails and writes no reboot marker. When the upgrade succeeds, the failure comes from mark_clean raising on the flag that mark_dirty set. The upgrade step itself is abstract; see the apk_upgrade line under "## Left out". |
| UpdateOrder.MilestonesConcat | fruit_update.py:125-153 | The milestones of two stretches of the history are the milestones of each, one after the other. |
| UpdateOrder.MarkDirtyMilestones | fruit_update.py:47-56 | mark_dirty's only milestone is setting its flag; a failed first remount has none. |
| UpdateOrder.MarkCleanFixedMilestones | fruit_update.py:59-67 | The corrected mark_clean's only milestone is clearing its flag, and only on a dirty device. |
| UpdateOrder.MountRootBackupMilestones | fruit_update.py:70-83 | mount_root_backup's only milestone is the attempt to mount the device. |
| UpdateOrder.FinishStepsOrder | fruit_update.py:141-146 | The end of the `try` keeps the order flag cleared, then marker. The flag stays set unless it was cleared. |
| UpdateOrder.UpgradeStepsOrder | fruit_update.py:139-146 | Mount, upgrade and the end of the `try` keep the upgrade half of the order. |
| UpdateOrder.UpdateStepsOrder | fruit_update.py:132-146 | The whole `try` keeps the intended order. |
| UpdateOrder.UpdateFactsHold | fruit_update.py:125-153 | The handler adds no milestone. It keeps the facts the `try` established and reports the original failure. |
| UpdateRuns.CorrectedUpdateSucceeds | fruit_update.py:125-153 | With the two slips corrected, in a healthy environment (every command succeeds, both partitions exist, nothing under the backup directory), update() succeeds. It writes the upgrade to the non-active partition and nowhere else, clears its flag, and leaves the mount table as it found it. It writes the marker exactly when the count is positive. |
| UpdateRuns.AsWrittenLeavesBackupMounted | fruit_update.py:141-152 | As written, in the same healthy environment, update() fails. The partition stays dirty, no marker is written, and all four backup mounts stay in the table, with the non-active partition at the backup directory. |
| UpdateRuns.HandlerMisses | fruit_update.py:152 | The handler's unmount as written is aimed at the device path. When nothing is mounted at or under that path as a mount point, the mount table, the files and the marker stay as they were. The model's `umount` matches mount points only; see the `umount` line under "## Left out". |
| UpdateTeardown.FlagOutlivesBackupMount | fruit_update.py:125-153 | With both slips corrected, for every world and upgrade outcome: if update() clears the non-active partition's flag, or succeeds, nothing is mounted at the backup directory when it ends. This holds after the handler's unmount too. A partition left mounted at the backup directory therefore still has its flag. |
| UpdateTeardown.ClearAfterTeardown | fruit_update.py:141-146 | In the corrected end of the `try`, the flag is cleared only after the teardown unmount passed with nothing mounted at the backup directory. The table at the clear, and at the end, is the one the teardown left. A successful end also implies a passed teardown. |
| UpdateTeardown.UpgradeClearsAfterTeardown | fruit_update.py:139-146 | The corrected mount, upgrade and finish clear the flag, or succeed, only with nothing left mounted at the backup directory. |
| UpdateTeardown.StepsClearAfterTeardown | fruit_update.py:132-146 | The same holds for the whole corrected `try`: the steps before the mount never clear the flag. |
| UpdateTeardown.HandlerKeepsUnmounted | fruit_update.py:147-153 | After a failed `try`, a handler step that reaches no milestone and keeps an unmounted backup directory unmounted keeps the guarantee the `try` gave. |
| UpdateTeardown.HandlerGuarded | fruit_update.py:152 | The corrected handler, which unmounts the backup directory again, keeps the guarantee the `try` gave. |
| UpdateTeardown.UnmountKeepsUnmounted | fruit_update.py:86-96 | unmount_root_backup, whatever its target, never mounts anything: a directory with nothing mounted at it stays so. |
| UpdateTeardown.TryAllKeepsUnmounted | fruit_update.py:93-94 | Forced unmounts run with `call` keep a directory with nothing mounted at it so. |
| UpdateTeardown.ExecKeepsUnmounted | fruit_update.py:94 | One forced unmount, whatever its target and exit status, keeps a directory with nothing mounted at it so. |
| UpdateRuns.MountedAtConcat | fruit_update.py:13-23 | A scan that finds nothing in the first part of the table goes on into the rest. |
| Host.System.MountedAt | fruit_update.py:13-23 | The loop over the lines returns what `MountTable.MountedAt` says. |
| Host.System.RootPartitions | fruit_update.py:26-36 | The method returns the roles `Machine.RootPartitions` picks. |
| Host.System.IsDirty | fruit_update.py:43-44 | The method says whether the flag exists. |
| Host.System.Run | fruit_update.py:53 | Running a command changes the state exactly as `Machine.Exec` says. |
| Host.System.MarkDirty | fruit_update.py:47-56 | The new state and outcome are those of `Machine.MarkDirty`. |
| Host.System.MarkClean | fruit_update.py:59-67 | The state is unchanged, and the outcome is that of `Machine.MarkClean`. |
| Host.System.MarkCleanFixed | fruit_update.py:59-67 | The new state and outcome are those of `Machine.MarkCleanFixed`. |
| Host.System.MountRootBackup | fruit_update.py:70-83 | The new state and outcome are those of `Machine.MountRootBackup`. |
| Host.System.UnmountRootBackup | fruit_update.py:86-96 | The new state and outcome are those of `Machine.UnmountRootBackup`. |
| Host.System.Upgrade | fruit_update.py:99-122 | The new state and the count are those of `Machine.Upgrade`. |
| Host.System.UpdateSteps | fruit_update.py:130-140 | The new state and outcome are those of `Machine.UpdateSteps`. |
| Host.System.UpgradeSteps | fruit_update.py:139-140 | The new state and outcome are those of `Machine.UpgradeSteps`. |
| Host.System.FinishSteps | fruit_update.py:141-146 | The new state and outcome are those of `Machine.FinishSteps`. |
| Host.System.Update | fruit_update.py:125-153 | The new state and outcome are those of `Machine.Update`, so every UpdateOrder and UpdateRuns property holds of it. |
| JsonPointer.Get | share/fruit/python/fruit/agent/config.py:13-37 | The loop over the tokens returns what `Eval` says. |
| JsonPointer.EvalCases | share/fruit/python/fruit/agent/config.py:14-18 | The empty pointer selects the whole blob. A pointer is invalid (ValueError) exactly when it is nonempty and does not start with `/`. |
| JsonPointer.Tokens | share/fruit/python/fruit/agent/config.py:20 | No token contains a `/`. |
| JsonPointer.TokensExamples | share/fruit/python/fruit/agent/config.py:20 | `/` is the single empty token. A trailing `/` adds an empty token. Escapes stay in the token until it is unescaped. |
| JsonPointer.UnescapeOrder | share/fruit/python/fruit/agent/config.py:21-22 | `~1` is undone before `~0`, so `~01` becomes `~1` and not `/`, as section 4 of RFC 6901 requires. |
| JsonPointer.UnescapeEscape | share/fruit/python/fruit/agent/config.py:21-22 | Unescaping undoes the RFC 6901 escaping of any key. |
| JsonPointer.UnescapePlain | share/fruit/python/fruit/agent/config.py:21-22 | A token without `~` is its own key. |
| JsonPointer.Escape | share/fruit/python/fruit/agent/config.py:21-22 | An escaped key contains no `/`. |
| JsonPointer.ListIndex | share/fruit/python/fruit/agent/config.py:29 | `blob[i]` on a list selects an element exactly when `-len <= i < len`, and then it is the element at position `i` modulo the length, so negative indices count from the end. Otherwise IndexError gives the default. |
| Decimal.ParseIntDecimal | share/fruit/python/fruit/agent/config.py:29 | `int(str(i), 10) == i` for every integer, so every position of a list has a token that selects it. |
| Decimal.ParseIntExamples | share/fruit/python/fruit/agent/config.py:29-31 | Leading zeros and a sign are accepted. The empty token, a lone sign and a letter raise ValueError, which reads as not present. |
| Decimal.NatToDecimal | share/fruit/python/fruit/agent/config.py:29 | The decimal form of a number is a nonempty run of digits. |
| JsonPointer.StepCases | share/fruit/python/fruit/agent/config.py:23-35 | Evaluation returns the default when: on a dict, the key is missing; on a list, the token is not an integer or is out of range; on anything else, always. Otherwise it goes on from the selected element. |
| JsonPointer.Walk | share/fruit/python/fruit/agent/config.py:20-37 | Walking the tokens never yields the ValueError; only the leading check raises. |
| JsonPointer.WalkConcat | share/fruit/python/fruit/agent/config.py:20-37 | Walking two runs of tokens is walking the second from where the first ends. A miss in the first is a miss overall. |
| JsonPointer.EvalPointerConcat | share/fruit/python/fruit/agent/config.py:13-37 | Pointer evaluation composes. The pointer of `k1 + k2` selects what the pointer of `k2` selects inside what the pointer of `k1` selects. |
| JsonPointer.EvalPointer | share/fruit/python/fruit/agent/config.py:17-22 | A pointer built from keys is walked by exactly the escaped keys. |
| JsonPointer.TokensOfPointer | share/fruit/python/fruit/agent/config.py:20 | Splitting a pointer built from keys gives back the escaped keys. |
| JsonPointer.PointerJoin | share/fruit/python/fruit/agent/config.py:20 | A pointer built from keys is its escaped keys joined by `/` after an empty first piece. |
| JsonPointer.EvalNested | share/fruit/python/fruit/agent/config.py:13-37 | The pointer of a chain of keys finds the value nested under those keys, for any keys, including keys with `/` and `~`. |
| JsonPointer.EscapeAllConcat | share/fruit/python/fruit/agent/config.py:21-22 | Escaping keys one by one distributes over concatenation. |
| Config.LoadAll | share/fruit/python/fruit/agent/config.py:46-55 | The cache never holds more blobs than there are config files. |
| Config.LoadAllMembers | share/fruit/python/fruit/agent/config.py:46-55 | A blob is in the cache exactly when some listed file exists and loads into it. |
| Config.LoadAllEvery | share/fruit/python/fruit/agent/config.py:46-55 | When every file exists and loads, the cache holds one blob per file, in file order. |
| Config.LoadAllConcat | share/fruit/python/fruit/agent/config.py:48-55 | The blobs of earlier files come before those of later files. |
| Config.LookupFirstHit | share/fruit/python/fruit/agent/config.py:56-59 | The answer comes from the first blob that has a value at the pointer. |
| Config.LookupAbsent | share/fruit/python/fruit/agent/config.py:56-60 | Nothing is found exactly when no blob has a value at the pointer. |
| Config.LookupInvalid | share/fruit/python/fruit/agent/config.py:56-60 | A malformed pointer raises exactly when there is at least one blob to evaluate it on. With no blobs, even a malformed pointer yields the default. |
| Config.LookupConcat | share/fruit/python/fruit/agent/config.py:56-60 | Layering: earlier files override later files wherever they have a value, and later files fill in the rest. |
| Config.StoredValueShadows | share/fruit/python/fruit/agent/config.py:57-58 | A stored value wins whatever the default is, even a stored `null`, because the test compares against the sentinel and not against `default`. |
| Config.Search | share/fruit/python/fruit/agent/config.py:56-60 | The loop over the cached blobs returns the first hit, the ValueError, or the default, as `Lookup` says. |
| Config.Cache.constructor | share/fruit/python/fruit/agent/config.py:11 | On import, the cache is empty. |
| Config.Cache.ClearCache | share/fruit/python/fruit/agent/config.py:39-41 | After clear_cache, the cache is empty, so the next get rebuilds it. |
| Config.Cache.Get | share/fruit/python/fruit/agent/config.py:44-60 | An empty cache is built once, from the files as they are at that moment. A built cache is kept, whatever the disk now holds. The answer is the first hit in the cache, the default, or the ValueError. |

## Left out

- I/O is not modelled: real effects of `mount`, `umount`, `dd`, `apk` and `grep`, reading `/proc/mounts`, `open`, `os.mkdir` and `os.remove`. Commands are transitions whose exit status comes from the script parameter, which stands for the environment.
- Every command's stdout and stderr redirection to `/dev/null` is not modelled, because it has no effect on the state.
- `syslog` calls (fruit_update.py:135, 151 and config.py:54) are not modelled, because they only log.
- The time stamp in the reboot marker (fruit_update.py:146) is not modelled, because it is a clock reading formatted as a float. The marker holds only the upgraded count.
- apk_upgrade (fruit_update.py:99-122) is an abstract step: its effect on the mounted device and its count are the `UpgradeResult` parameter. Its internals are not modelled, because they are all external commands and file I/O. As written it would raise NameError at line 104, because `tempfile` is not imported. So as written the upgrade fails on every run, which is the `UpgradeFailed` outcome. Every property is stated for every `UpgradeResult`, so the properties also cover the upgrade as intended, once line 104 is fixed.
- The handler of update() (fruit_update.py:148-153) mixes tabs and spaces. Python 2 counts a tab as 8 columns, so line 150 closes the `except` block after its `pass`, and line 152 is an unexpected indent. The file as indented therefore does not compile, and fruit_update.py cannot be imported. The handler also uses `sys` without importing it, and uses the Python 2 three-argument `raise`. It is modelled as evidently meant: attempt the teardown unmount, ignore how that ends, and propagate the original failure.
- Machine.Update: the handler's own failure is not modelled. A raise from its unmount would replace the original exception; in the model the original failure is always the outcome. Every UpdateOrder and UpdateRuns lemma about update() rests on this abstraction.
- Host.System.Update: the same abstraction as Machine.Update, which this method is proved equal to.
- `umount` with a device argument is not modelled. Real `umount` (BusyBox and util-linux alike) also accepts a device and then unmounts that device's latest mount. It refuses with EBUSY a mount that has other mounts below it. The model matches the target only against mount points and has no EBUSY. So the as-written `umount -f /dev/mmcblk0p3` (fruit_update.py:94, reached from lines 141 and 152) always misses in the model. After the full backup mount the real call fails too, because the submounts keep the device busy, so the results about a healthy run and about a failed upgrade stand. After a mount_root_backup that stopped after mounting the device (a failure at line 79 for `proc`), the real call would take `/media/root-backup` off, and the model says it stays.
- Machine.Variant: one variant corrects both slips together, line 65 and lines 141/152. A program with only line 65 corrected is not modelled. That program would clear the flag while the partition is still mounted at the backup directory, which UpdateTeardown.FlagOutlivesBackupMount rules out for the corrected variant.
- Machine.MarkClean: line 65 passes the builtin `dir`. The check_call raises TypeError, which is modelled as `Fail(NotAString)` before any command runs. What a Python 2 subprocess does with that argument in detail is not modelled.
- Concurrency is not modelled, because the script is single-threaded. This covers a second updater, other writers of the mount table, and other users of the config cache.
- The `FRUIT_AGENT_CONFIG_FILES` environment variable and the default file list (config.py:8-9) become the `files` parameter of `Config.Cache.Get`. The `os.environ` lookup and the `split(':')` are not modelled.
- JSON parsing (`json.load`, config.py:51-52) is not modelled. A file on the `disk` map either loads into a `Json.Value` or is `Unloadable`.
- Json.Value: JSON numbers are integers only, because floating point is not modelled.
- Decimal.ParseInt: accepts only an optional sign followed by ASCII digits. Python's `int` also allows surrounding whitespace, underscores between digits and non-ASCII digits; these are not modelled.
- Config.Answer: the ValueError carries a fixed text, not the `%r` of the offending path.
- Object identity is not modelled: the sentinel (config.py:43) is the `Absent` evaluation, and `is not` on it is the test for `Absent`.
- The upgrade is modelled as writing to whatever device `mounted_at` finds at the backup directory; what `apk` does inside the file system is not modelled.

## Findings

| source | as written | input that shows it | evidently intended | confidence | as-written member | corrected member |
|---|---|---|---|---|---|---|
| fruit_update.py:65 | mark_clean passes the builtin `dir` to `check_call`; line 67 does the same. There is no local `dir`, so the call raises TypeError before the flag is removed. | This assumes line 104 is fixed: as written, apk_upgrade raises NameError there on every run, so no run reaches line 141 or 142. Then any update() whose upgrade succeeds reaches line 142, and mark_dirty at line 138 has just created the flag, so the flag exists there. | Remount `os.path.dirname(flag)` read-write, remove the flag, remount it read-only, as mark_dirty does. | not executed | UpdateOrder.AsWrittenNeverSucceeds | UpdateProperties.MarkCleanFixedOutcome |
| fruit_update.py:141 | update() calls `unmount_root_backup(nonactive)`, so the forced unmounts target `/dev/mmcblk0p3/dev` and the like instead of `/media/root-backup`. Line 152 makes the same call in the handler. `mounted_at` of the device path finds nothing, so no error is raised. | This assumes line 104 is fixed, as for line 65. Then take a healthy run: every command succeeds and nothing is mounted under the device path. All four backup mounts are still in the table afterwards. The line-152 copy shows in a run that fails after the full backup mount, for example when the upgrade fails. There the submounts keep the device busy, and all four mounts stay; UpdateRuns.HandlerMisses models it. After a partial mount that stopped at line 79, the real `umount -f /dev/mmcblk0p3` would take the device's mount off; the model does not cover that case (see the `umount` line under "## Left out"). | `unmount_root_backup()`, the backup directory. | not executed | UpdateRuns.AsWrittenLeavesBackupMounted | UpdateRuns.CorrectedUpdateSucceeds |
