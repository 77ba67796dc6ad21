/**
 * The file flags of the workflow commands: `-f` paths that must exist, `-d` directories
 * and `-t` repetitions that each open the interactive markdown picker, and the prompt
 * prefix built from the chosen files. The file system check (`os.Stat`) and the picker
 * are inputs; the picker is told which call it is and which directory it browses.
 */
module FileFlags {
  import opened Wrappers
  import opened Text

  /** The flags `-f` (repeatable), `-d` (repeatable) and the counter `-t`. */
  datatype Flags = Flags(files: seq<string>, dirs: seq<string>, thoughts: nat)

  /** What `os.Stat` reports for a path: found, does-not-exist, or some other error. */
  datatype Stat = Found | NotExist | StatError

  /** The picker: the `k`-th call, opened on a directory, gives a path or an error. */
  type Picker = (nat, string) -> Result<string, string>

  /** The directory the picker opens on for `-t`. */
  const ThoughtsDir: string := "thoughts/shared"

  /** The directories the picker is opened on, in order: each `-d`, then `-t` times the thoughts directory. */
  function PickerDirs(f: Flags): (dirs: seq<string>)
    ensures |dirs| == |f.dirs| + f.thoughts
    ensures forall k :: 0 <= k < |f.dirs| ==> dirs[k] == f.dirs[k]
    ensures forall k :: |f.dirs| <= k < |dirs| ==> dirs[k] == ThoughtsDir
  {
    f.dirs + seq(f.thoughts, _ => ThoughtsDir)
  }

  /** The first path `os.Stat` reports as missing; other stat errors let the path through. */
  function FirstMissing(files: seq<string>, stat: string -> Stat): (k: Option<nat>)
    ensures k.None? <==> forall i :: 0 <= i < |files| ==> stat(files[i]) != NotExist
    ensures k.Some? ==> k.value < |files| && stat(files[k.value]) == NotExist
    ensures k.Some? ==> forall i :: 0 <= i < k.value ==> stat(files[i]) != NotExist
  {
    if files == [] then None
    else if stat(files[0]) == NotExist then Some(0)
    else match FirstMissing(files[1..], stat)
      case None => None
      case Some(k) => Some(k + 1)
  }

  /** The first picker call, from the `from`-th on, that fails. */
  function FirstPickFailure(dirs: seq<string>, pick: Picker, from: nat): (k: Option<nat>)
    requires from <= |dirs|
    ensures k.None? <==> forall i :: from <= i < |dirs| ==> pick(i, dirs[i]).Success?
    ensures k.Some? ==> from <= k.value < |dirs| && pick(k.value, dirs[k.value]).Failure?
    ensures k.Some? ==> forall i :: from <= i < k.value ==> pick(i, dirs[i]).Success?
    decreases |dirs| - from
  {
    if from == |dirs| then None
    else if pick(from, dirs[from]).Failure? then Some(from)
    else FirstPickFailure(dirs, pick, from + 1)
  }

  /**
   * What `ResolveFiles` returns: the error of the first missing `-f` path, else the error
   * of the first failed picker call, else the `-f` paths followed by the picked paths.
   */
  function Resolved(f: Flags, stat: string -> Stat, pick: Picker): Result<seq<string>, string>
  {
    match FirstMissing(f.files, stat)
    case Some(k) => Failure("file not found: " + f.files[k])
    case None =>
      var dirs := PickerDirs(f);
      match FirstPickFailure(dirs, pick, 0)
      case Some(k) => Failure(pick(k, dirs[k]).error)
      case None => Success(f.files + Picks(dirs, pick))
  }

  /** The paths the picker calls gave, when none failed. */
  function Picks(dirs: seq<string>, pick: Picker): (r: seq<string>)
    requires forall i :: 0 <= i < |dirs| ==> pick(i, dirs[i]).Success?
    ensures |r| == |dirs| && forall k :: 0 <= k < |dirs| ==> r[k] == pick(k, dirs[k]).value
  {
    seq(|dirs|, k requires 0 <= k < |dirs| => pick(k, dirs[k]).value)
  }

  /**
   * A successful resolution lists the `-f` paths, then one picked path per `-d`
   * directory, then one per `-t`, each from the picker call made for it.
   */
  lemma ResolvedOrder(f: Flags, stat: string -> Stat, pick: Picker)
    requires Resolved(f, stat, pick).Success?
    ensures var r := Resolved(f, stat, pick).value;
      |r| == |f.files| + |f.dirs| + f.thoughts && r[..|f.files|] == f.files
      && (forall k :: 0 <= k < |f.dirs| ==>
            pick(k, f.dirs[k]).Success? && r[|f.files| + k] == pick(k, f.dirs[k]).value)
      && (forall k :: |f.dirs| <= k < |f.dirs| + f.thoughts ==>
            pick(k, ThoughtsDir).Success? && r[|f.files| + k] == pick(k, ThoughtsDir).value)
  {
    var dirs := PickerDirs(f);
    assert FirstMissing(f.files, stat).None? && FirstPickFailure(dirs, pick, 0).None?;
    var r := Resolved(f, stat, pick).value;
    assert r == f.files + Picks(dirs, pick);
    forall k | |f.dirs| <= k < |f.dirs| + f.thoughts
      ensures pick(k, ThoughtsDir).Success? && r[|f.files| + k] == pick(k, ThoughtsDir).value
    {
      assert dirs[k] == ThoughtsDir;
      assert r[|f.files| + k] == Picks(dirs, pick)[k];
    }
  }

  /** Without flags nothing is checked, nothing is picked, and the list is empty. */
  lemma NoFlagsResolveEmpty(stat: string -> Stat, pick: Picker)
    ensures Resolved(Flags([], [], 0), stat, pick) == Success([])
  {
    var dirs := PickerDirs(Flags([], [], 0));
    assert |Picks(dirs, pick)| == 0;
  }

  /** A missing `-f` path fails the whole resolution, naming the first such path. */
  lemma MissingFileFails(f: Flags, stat: string -> Stat, pick: Picker, k: nat)
    requires k < |f.files| && stat(f.files[k]) == NotExist
    ensures Resolved(f, stat, pick).Failure?
    ensures exists j :: 0 <= j <= k && Resolved(f, stat, pick) == Failure("file not found: " + f.files[j])
  {
    var j := FirstMissing(f.files, stat);
    assert j.Some? && j.value <= k;
  }

  /** `ResolveFiles`: the three loops, returning at the first error. */
  method ResolveFiles(f: Flags, stat: string -> Stat, pick: Picker) returns (r: Result<seq<string>, string>)
    ensures r == Resolved(f, stat, pick)
  {
    var dirs := PickerDirs(f);
    var resolved: seq<string> := [];
    for i := 0 to |f.files|
      invariant resolved == f.files[..i]
      invariant forall j :: 0 <= j < i ==> stat(f.files[j]) != NotExist
    {
      if stat(f.files[i]) == NotExist {
        return Failure("file not found: " + f.files[i]);
      }
      resolved := resolved + [f.files[i]];
    }
    assert f.files[..|f.files|] == f.files;
    for i := 0 to |f.dirs|
      invariant |resolved| == |f.files| + i && resolved[..|f.files|] == f.files
      invariant forall k :: 0 <= k < i ==> pick(k, dirs[k]).Success? && resolved[|f.files| + k] == pick(k, dirs[k]).value
    {
      var path := pick(i, f.dirs[i]);
      assert dirs[i] == f.dirs[i];
      if path.Failure? {
        ghost var first := FirstPickFailure(dirs, pick, 0);
        assert first.Some? && first.value == i;
        return Failure(path.error);
      }
      resolved := resolved + [path.value];
    }
    for i := 0 to f.thoughts
      invariant |resolved| == |f.files| + |f.dirs| + i && resolved[..|f.files|] == f.files
      invariant forall k :: 0 <= k < |f.dirs| + i ==> pick(k, dirs[k]).Success? && resolved[|f.files| + k] == pick(k, dirs[k]).value
    {
      var path := pick(|f.dirs| + i, ThoughtsDir);
      assert dirs[|f.dirs| + i] == ThoughtsDir;
      if path.Failure? {
        ghost var first := FirstPickFailure(dirs, pick, 0);
        assert first.Some? && first.value == |f.dirs| + i;
        return Failure(path.error);
      }
      resolved := resolved + [path.value];
    }
    assert resolved == f.files + Picks(dirs, pick);
    return Success(resolved);
  }

  /** `PrependFilesToTask`: the files, then the task, joined by single spaces; no files, no change. */
  function PrependFilesToTask(files: seq<string>, task: string): (r: string)
    ensures files == [] ==> r == task
    ensures files != [] ==> r == Join(files, " ") + " " + task
  {
    if files == [] then task
    else
      JoinAppend(files, task, " ");
      Join(files + [task], " ")
  }

  /** Joining one more part adds the separator and the part. */
  lemma {:induction false} JoinAppend(parts: seq<string>, last: string, sep: string)
    requires parts != []
    ensures Join(parts + [last], sep) == Join(parts, sep) + sep + last
  {
    if |parts| > 1 {
      JoinAppend(parts[1..], last, sep);
      assert (parts + [last])[1..] == parts[1..] + [last];
    } else {
      assert (parts + [last])[1..] == [last];
    }
  }

  /**
   * Paths without spaces can be read back from the prompt: splitting it at spaces
   * gives the paths, then the words of the task.
   */
  lemma {:induction false} PrependedFilesSplit(files: seq<string>, task: string)
    requires files != []
    requires forall i :: 0 <= i < |files| ==> ' ' !in files[i]
    ensures Split(PrependFilesToTask(files, task), ' ') == files + Split(task, ' ')
  {
    var rest := " " + task;
    assert rest[1..] == task;
    assert Split(rest, ' ') == [""] + Split(task, ' ');
    if |files| == 1 {
      assert Join(files, " ") + " " + task == files[0] + rest;
      SplitPrefix(files[0], rest, ' ');
      assert files[0] + "" == files[0];
      assert files == [files[0]];
    } else {
      PrependedFilesSplit(files[1..], task);
      var tail := Join(files[1..], " ") + " " + task;
      assert Join(files, " ") + " " + task == files[0] + (" " + tail);
      SplitPrefix(files[0], " " + tail, ' ');
      assert (" " + tail)[1..] == tail;
      assert Split(" " + tail, ' ') == [""] + Split(tail, ' ');
      assert files[0] + "" == files[0];
      assert files == [files[0]] + files[1..];
    }
  }
}
