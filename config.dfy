/** The layered agent configuration (share/fruit/python/fruit/agent/config.py:39-60): the blobs
    of the config files, loaded once into a module-level cache, searched in file order. */
module Config {

  import opened Wrappers
  import opened Json
  import opened JsonPointer

  /** An existing config file either loads into a JSON value or fails to (unreadable, or not
      JSON); a file that does not exist is one missing from the disk map. */
  datatype FileState = Unloadable | Loaded(blob: Value)

  /** The blob a file adds to the cache, if any. */
  function BlobOf(filename: string, disk: map<string, FileState>): seq<Value>
  {
    if filename in disk && disk[filename].Loaded? then [disk[filename].blob] else []
  }

  /** The cache as the build loop leaves it: the blobs of the files that exist and load, in
      the order the files are listed. */
  function LoadAll(files: seq<string>, disk: map<string, FileState>): (r: seq<Value>)
    ensures |r| <= |files|
  {
    if |files| == 0 then []
    else LoadAll(files[..|files| - 1], disk) + BlobOf(files[|files| - 1], disk)
  }

  /** Loading a list of files in two parts puts the first part's blobs first. */
  lemma {:induction false} LoadAllConcat(f1: seq<string>, f2: seq<string>, disk: map<string, FileState>)
    ensures LoadAll(f1 + f2, disk) == LoadAll(f1, disk) + LoadAll(f2, disk)
    decreases |f2|
  {
    if |f2| == 0 {
      assert f1 + f2 == f1;
    } else {
      var f := f1 + f2;
      var init := f2[..|f2| - 1];
      assert f[..|f| - 1] == f1 + init;
      assert f[|f| - 1] == f2[|f2| - 1];
      LoadAllConcat(f1, init, disk);
      calc {
        LoadAll(f, disk);
        LoadAll(f1 + init, disk) + BlobOf(f2[|f2| - 1], disk);
        LoadAll(f1, disk) + LoadAll(init, disk) + BlobOf(f2[|f2| - 1], disk);
        LoadAll(f1, disk) + LoadAll(f2, disk);
      }
    }
  }

  /** A blob is in the cache exactly when some listed file exists and loads into it. */
  lemma {:induction false} LoadAllMembers(files: seq<string>, disk: map<string, FileState>, v: Value)
    ensures v in LoadAll(files, disk) <==>
      exists k :: 0 <= k < |files| && files[k] in disk && disk[files[k]] == Loaded(v)
  {
    if |files| > 0 {
      var init := files[..|files| - 1];
      var last := files[|files| - 1];
      LoadAllMembers(init, disk, v);
      if exists k :: 0 <= k < |files| && files[k] in disk && disk[files[k]] == Loaded(v) {
        var k :| 0 <= k < |files| && files[k] in disk && disk[files[k]] == Loaded(v);
        if k < |files| - 1 {
          assert init[k] == files[k];
        }
      }
      if v in LoadAll(init, disk) {
        var k :| 0 <= k < |init| && init[k] in disk && disk[init[k]] == Loaded(v);
        assert files[k] == init[k];
      }
    }
  }

  /** Every file exists and loads: the cache holds one blob per file, in the same order. */
  lemma {:induction false} LoadAllEvery(files: seq<string>, disk: map<string, FileState>)
    requires forall k :: 0 <= k < |files| ==> files[k] in disk && disk[files[k]].Loaded?
    ensures |LoadAll(files, disk)| == |files|
    ensures forall k :: 0 <= k < |files| ==> LoadAll(files, disk)[k] == disk[files[k]].blob
  {
    if |files| > 0 {
      LoadAllEvery(files[..|files| - 1], disk);
    }
  }

  /** The search in `get` (config.py:56-59): the first blob where the pointer evaluates to
      something other than the sentinel decides; a malformed pointer raises at the first blob
      evaluated, so only when there is one. */
  function Lookup(blobs: seq<Value>, path: string): Evaluation
  {
    if |blobs| == 0 then Absent
    else match Eval(path, blobs[0])
      case Absent => Lookup(blobs[1..], path)
      case decided => decided
  }

  /** The blob that answers is the first one with a value at the pointer. */
  lemma {:induction false} LookupFirstHit(blobs: seq<Value>, path: string, i: nat)
    requires i < |blobs| && Eval(path, blobs[i]).Found?
    requires forall j :: 0 <= j < i ==> Eval(path, blobs[j]) == Absent
    ensures Lookup(blobs, path) == Eval(path, blobs[i])
  {
    if i > 0 {
      assert Eval(path, blobs[0]) == Absent;
      LookupFirstHit(blobs[1..], path, i - 1);
    }
  }

  /** Nothing is found exactly when no blob has a value at the pointer. */
  lemma {:induction false} LookupAbsent(blobs: seq<Value>, path: string)
    ensures Lookup(blobs, path) == Absent <==> forall j :: 0 <= j < |blobs| ==> Eval(path, blobs[j]) == Absent
  {
    if |blobs| > 0 {
      LookupAbsent(blobs[1..], path);
      assert forall j :: 1 <= j < |blobs| ==> blobs[1..][j - 1] == blobs[j];
    }
  }

  /** A malformed pointer is reported exactly when there is a blob to evaluate it on. */
  lemma LookupInvalid(blobs: seq<Value>, path: string)
    ensures Lookup(blobs, path) == Invalid <==> |blobs| > 0 && path != "" && path[0] != '/'
  {
    EvalCases(path, if |blobs| > 0 then blobs[0] else Null);
  }

  /** Layering: an earlier list of blobs overrides a later one wherever it has a value. */
  lemma {:induction false} LookupConcat(b1: seq<Value>, b2: seq<Value>, path: string)
    ensures Lookup(b1 + b2, path) == if Lookup(b1, path) == Absent then Lookup(b2, path) else Lookup(b1, path)
  {
    if |b1| == 0 {
      assert b1 + b2 == b2;
    } else {
      assert (b1 + b2)[0] == b1[0];
      assert (b1 + b2)[1..] == b1[1..] + b2;
      LookupConcat(b1[1..], b2, path);
    }
  }

  /** What `get(path, default)` returns (or raises): the value found, `default` when nothing is
      found, or the ValueError for a malformed pointer. */
  function Answer(e: Evaluation, default: Value): Result<Value, string>
  {
    match e
    case Found(v) => Success(v)
    case Absent => Success(default)
    case Invalid => Failure("Invalid jsonpointer")
  }

  /** A stored value counts however it compares with `default`: a stored `null` in the first
      file shadows whatever the later files hold, whatever default is asked for. */
  lemma StoredValueShadows(first: Value, rest: seq<Value>, path: string, v: Value, default: Value)
    requires Eval(path, first) == Found(v)
    ensures Answer(Lookup([first] + rest, path), default) == Success(v)
    ensures v == Null ==> Answer(Lookup([first] + rest, path), default) == Success(Null)
  {
    LookupFirstHit([first] + rest, path, 0);
  }

  /** The loop of `get` over the cached blobs (config.py:56-60). */
  method Search(blobs: seq<Value>, path: string, default: Value) returns (r: Result<Value, string>)
    ensures r == Answer(Lookup(blobs, path), default)
  {
    for i := 0 to |blobs|
      invariant Lookup(blobs[i..], path) == Lookup(blobs, path)
    {
      assert blobs[i..][1..] == blobs[i + 1..];
      var v := JsonPointer.Get(path, blobs[i]);
      match v
      case Found(value) => return Success(value);
      case Invalid => return Failure("Invalid jsonpointer");
      case Absent =>
    }
    return Success(default);
  }

  /** The module-level `__config_blobs` (config.py:11): None until the first `get` builds it. */
  class Cache {
    var blobs: Option<seq<Value>>

    /** Importing the module leaves the cache empty. */
    constructor ()
      ensures blobs == None
    {
      blobs := None;
    }

    /** `clear_cache()` (config.py:39-41): the next `get` rebuilds the blobs. */
    method ClearCache()
      modifies this
      ensures blobs == None
    {
      blobs := None;
    }

    /** `get(path, default)` (config.py:44-60). The blobs are built only when the cache is
        None, from `files` (CONFIG_FILES) as they are on `disk` at that moment; otherwise the
        blobs already there are used, whatever the disk now holds. */
    method Get(path: string, default: Value, files: seq<string>, disk: map<string, FileState>)
      returns (r: Result<Value, string>)
      modifies this
      ensures old(blobs).Some? ==> blobs == old(blobs)
      ensures old(blobs).None? ==> blobs == Some(LoadAll(files, disk))
      ensures r == Answer(Lookup(blobs.value, path), default)
    {
      if blobs.None? {
        var loaded: seq<Value> := [];
        for i := 0 to |files|
          invariant loaded == LoadAll(files[..i], disk)
        {
          assert files[..i + 1][..i] == files[..i];
          var filename := files[i];
          if filename in disk {
            match disk[filename]
            case Loaded(blob) => loaded := loaded + [blob];
            case Unloadable =>
          }
        }
        assert files[..|files|] == files;
        blobs := Some(loaded);
      }
      r := Search(blobs.value, path, default);
    }
  }
}
