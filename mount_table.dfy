/** The mount table as the kernel shows it in /proc/mounts: one line per mount, in mount order,
    whose first two space-separated fields are the device and the mount point. */
module MountTable {

  import opened Wrappers
  import opened Text

  /** The line the kernel lists for a new mount (options and dump/pass fields are fixed here). */
  function MountLine(device: string, path: string, fstype: string): string
  {
    device + " " + path + " " + fstype + " rw 0 0\n"
  }

  /** The mount point field of a line, when the line has the three fields mounted_at unpacks. */
  function PathOf(line: string): Option<string>
  {
    match Fields3(line)
    case None => None
    case Some(f) => Some(f.1)
  }

  /** A mount line read back gives the device and mount point it was written with. */
  lemma MountLineFields(device: string, path: string, fstype: string)
    requires ' ' !in device && ' ' !in path
    ensures Fields3(MountLine(device, path, fstype)) == Some((device, path, fstype + " rw 0 0\n"))
    ensures PathOf(MountLine(device, path, fstype)) == Some(path)
  {
    Fields3OfLine(device, path, fstype + " rw 0 0\n");
    assert MountLine(device, path, fstype) == device + " " + path + " " + (fstype + " rw 0 0\n");
  }

  /** `mounted_at(dir)` (fruit_update.py:13-23): scan the lines in order; a line that does not
      unpack into three fields raises (Failure, carrying that line); the first line whose mount
      point is `dir` yields its device; no such line yields None. */
  function MountedAt(lines: seq<string>, dir: string): Result<Option<string>, string>
  {
    if |lines| == 0 then Success(None)
    else match Fields3(lines[0])
      case None => Failure(lines[0])
      case Some(f) => if f.1 == dir then Success(Some(f.0)) else MountedAt(lines[1..], dir)
  }

  /** The first `i` lines unpack and none is mounted at `dir`: the scan passes them by. */
  ghost predicate PassedOver(lines: seq<string>, dir: string, i: nat)
    requires i <= |lines|
  {
    forall k :: 0 <= k < i ==> Fields3(lines[k]).Some? && Fields3(lines[k]).value.1 != dir
  }

  /** Skipping lines the scan passes over does not change its result. */
  lemma {:induction false} MountedAtSkip(lines: seq<string>, dir: string, i: nat)
    requires i <= |lines| && PassedOver(lines, dir, i)
    ensures MountedAt(lines, dir) == MountedAt(lines[i..], dir)
  {
    if i > 0 {
      assert Fields3(lines[0]).Some?;
      assert PassedOver(lines[1..], dir, i - 1) by {
        forall k | 0 <= k < i - 1 ensures Fields3(lines[1..][k]).Some? && Fields3(lines[1..][k]).value.1 != dir {
          assert lines[1..][k] == lines[k + 1];
        }
      }
      MountedAtSkip(lines[1..], dir, i - 1);
      assert lines[1..][i - 1..] == lines[i..];
    }
  }

  /** A line the scan passes over, in front of lines it passes over. */
  lemma PassedOverCons(lines: seq<string>, dir: string, j: nat)
    requires 0 < |lines| && j < |lines|
    requires Fields3(lines[0]).Some? && Fields3(lines[0]).value.1 != dir
    requires PassedOver(lines[1..], dir, j)
    ensures PassedOver(lines, dir, j + 1)
  {
    forall k | 0 < k <= j ensures Fields3(lines[k]).Some? && Fields3(lines[k]).value.1 != dir {
      assert lines[k] == lines[1..][k - 1];
    }
  }

  /** Where the scan stops: the first line that does not unpack or is mounted at `dir`,
      or |lines| when there is none. Every line before it is passed over. */
  function StopIndex(lines: seq<string>, dir: string): (i: nat)
    ensures i <= |lines| && PassedOver(lines, dir, i)
    ensures i < |lines| ==> Fields3(lines[i]).None? || Fields3(lines[i]).value.1 == dir
  {
    if |lines| == 0 then 0
    else if Fields3(lines[0]).None? || Fields3(lines[0]).value.1 == dir then 0
    else
      var j := StopIndex(lines[1..], dir);
      PassedOverCons(lines, dir, j);
      assert j < |lines[1..]| ==> lines[j + 1] == lines[1..][j];
      j + 1
  }

  /** mounted_at is decided by the first line where the scan stops: None when there is no
      such line, the raise when that line does not unpack, and its device otherwise. */
  lemma MountedAtMeaning(lines: seq<string>, dir: string)
    ensures MountedAt(lines, dir) ==
      var i := StopIndex(lines, dir);
      if i == |lines| then Success(None)
      else match Fields3(lines[i])
        case None => Failure(lines[i])
        case Some(f) => Success(Some(f.0))
  {
    MountedAtSkip(lines, dir, StopIndex(lines, dir));
  }

  /** mounted_at finds nothing exactly when every line unpacks and none is mounted at `dir`. */
  lemma MountedAtNone(lines: seq<string>, dir: string)
    ensures MountedAt(lines, dir) == Success(None) <==> PassedOver(lines, dir, |lines|)
  {
    MountedAtMeaning(lines, dir);
    if PassedOver(lines, dir, |lines|) {
      MountedAtSkip(lines, dir, |lines|);
      assert lines[|lines|..] == [];
    }
  }

  /** A new line at the end of the table only matters when no earlier line stops the scan. */
  lemma {:induction false} MountedAtAppend(lines: seq<string>, line: string, dir: string)
    ensures MountedAt(lines + [line], dir) ==
      if MountedAt(lines, dir) == Success(None) then MountedAt([line], dir) else MountedAt(lines, dir)
  {
    if |lines| > 0 {
      assert (lines + [line])[0] == lines[0];
      assert (lines + [line])[1..] == lines[1..] + [line];
      MountedAtAppend(lines[1..], line, dir);
    } else {
      assert lines + [line] == [line];
    }
  }

  /** The last line mounted at `dir` (the mount `umount` takes off), if any. */
  function LastAt(lines: seq<string>, dir: string): (r: Option<nat>)
    ensures r.Some? ==> r.value < |lines|
  {
    if |lines| == 0 then None
    else if PathOf(lines[|lines| - 1]) == Some(dir) then Some(|lines| - 1)
    else LastAt(lines[..|lines| - 1], dir)
  }

  /** LastAt finds a line mounted at `dir` with none after it, and finds nothing exactly when no
      line is mounted there. */
  lemma {:induction false} LastAtSpec(lines: seq<string>, dir: string)
    ensures var r := LastAt(lines, dir);
      && (r.Some? ==> PathOf(lines[r.value]) == Some(dir))
      && (r.Some? ==> forall k :: r.value < k < |lines| ==> PathOf(lines[k]) != Some(dir))
      && (r.None? <==> forall k :: 0 <= k < |lines| ==> PathOf(lines[k]) != Some(dir))
  {
    if |lines| > 0 && PathOf(lines[|lines| - 1]) != Some(dir) {
      var t := lines[..|lines| - 1];
      LastAtSpec(t, dir);
      assert forall k :: 0 <= k < |t| ==> t[k] == lines[k];
    }
  }

  /** The table without line `i`. */
  function RemoveLine(lines: seq<string>, i: nat): (r: seq<string>)
    requires i < |lines|
    ensures |r| == |lines| - 1
  {
    lines[..i] + lines[i + 1..]
  }

  /** The lines before `i` stay where they are and the ones after it move up by one. */
  lemma RemoveLineSpec(lines: seq<string>, i: nat)
    requires i < |lines|
    ensures forall k :: 0 <= k < i ==> RemoveLine(lines, i)[k] == lines[k]
    ensures forall k :: i <= k < |lines| - 1 ==> RemoveLine(lines, i)[k] == lines[k + 1]
  {
  }

  /** Taking a line off a table that has nothing at `dir` and unpacks everywhere keeps it so. */
  lemma RemoveKeepsUnmounted(lines: seq<string>, i: nat, dir: string)
    requires i < |lines| && MountedAt(lines, dir) == Success(None)
    ensures MountedAt(RemoveLine(lines, i), dir) == Success(None)
  {
    MountedAtNone(lines, dir);
    RemoveLineSpec(lines, i);
    var r := RemoveLine(lines, i);
    assert PassedOver(r, dir, |r|) by {
      forall k | 0 <= k < |r| ensures Fields3(r[k]).Some? && Fields3(r[k]).value.1 != dir {
        if k < i { assert r[k] == lines[k]; } else { assert r[k] == lines[k + 1]; }
      }
    }
    MountedAtNone(r, dir);
  }

  /** A line appended for `dir` is the one a later unmount of `dir` takes off, and taking it
      off gives back the table as it was before. */
  lemma LastAtAppended(lines: seq<string>, line: string, dir: string)
    requires PathOf(line) == Some(dir)
    ensures LastAt(lines + [line], dir) == Some(|lines|)
    ensures RemoveLine(lines + [line], |lines|) == lines
  {
    assert (lines + [line])[|lines|] == line;
    assert (lines + [line])[..|lines|] == lines;
  }

  /** A line appended for another mount point leaves the last mount at `dir` where it was. */
  lemma LastAtAppendedElsewhere(lines: seq<string>, line: string, dir: string)
    requires PathOf(line) != Some(dir)
    ensures LastAt(lines + [line], dir) == LastAt(lines, dir)
    ensures LastAt(lines, dir).Some? ==>
      RemoveLine(lines + [line], LastAt(lines, dir).value) == RemoveLine(lines, LastAt(lines, dir).value) + [line]
  {
    assert (lines + [line])[..|lines|] == lines;
    assert (lines + [line])[|lines|] == line;
    if LastAt(lines, dir).Some? {
      var i := LastAt(lines, dir).value;
      assert (lines + [line])[i + 1..] == lines[i + 1..] + [line];
    }
  }
}
