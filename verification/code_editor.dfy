/** The build steps recovered from the model's output, as the code editor hook sees them. */
module BuildSteps {
  import opened Common

  /** Only `CreateFile` matters to the editor; every other kind of step is a `RunScript`. */
  datatype StepType = CreateFile | RunScript

  datatype Status = Pending | Completed

  datatype Step = Step(id: int, title: string, kind: StepType, status: Status,
                       code: string, path: Option<string>)

  /** `steps.map(s => ({...s, status: "completed"}))`. */
  function MarkCompleted(steps: seq<Step>): (r: seq<Step>)
    ensures |r| == |steps|
    ensures forall i :: 0 <= i < |r| ==> r[i].status == Completed
    ensures forall i :: 0 <= i < |r| ==> r[i].(status := steps[i].status) == steps[i]
  {
    if steps == [] then [] else [steps[0].(status := Completed)] + MarkCompleted(steps[1..])
  }

  /** Marking twice is marking once: a second update of the same list changes nothing. */
  lemma MarkCompletedIdempotent(steps: seq<Step>)
    ensures MarkCompleted(MarkCompleted(steps)) == MarkCompleted(steps)
  {
    var once := MarkCompleted(steps);
    var twice := MarkCompleted(once);
    assert forall i :: 0 <= i < |twice| ==> twice[i] == once[i];
  }

  /** `steps.filter(({status}) => status === "pending")`, in list order. */
  function PendingSteps(steps: seq<Step>): (r: seq<Step>)
    ensures |r| <= |steps|
    ensures forall x :: x in r <==> x in steps && x.status == Pending
  {
    if steps == [] then []
    else if steps[0].status == Pending then [steps[0]] + PendingSteps(steps[1..])
    else PendingSteps(steps[1..])
  }

  /** The pending steps of two lists one after the other, in that order. */
  lemma {:induction false} PendingStepsConcat(a: seq<Step>, b: seq<Step>)
    ensures PendingSteps(a + b) == PendingSteps(a) + PendingSteps(b)
    decreases |a|
  {
    if a == [] {
      assert a + b == b;
    } else {
      assert (a + b)[0] == a[0] && (a + b)[1..] == a[1..] + b;
      PendingStepsConcat(a[1..], b);
    }
  }
}

/**
 * The effect of the code editor hook: every pending step is visited in order, each
 * `CreateFile` step is materialized into the file forest, and after each one the whole step
 * list is marked completed.
 */
module CodeEditorHook {
  import opened Common
  import opened FilePaths
  import opened FileForest
  import opened ForestFacts
  import opened WalkFacts
  import opened StepFacts
  import opened BuildSteps

  datatype Outcome = Outcome(files: Forest, steps: seq<Step>)

  /**
   * The state after visiting `batch`: a `CreateFile` step whose walk throws ends the effect
   * with the state reached before it; every applied one sets the forest and completes all
   * steps.  Other steps change nothing.
   */
  function RunPending(files: Forest, steps: seq<Step>, batch: seq<Step>): (r: Outcome)
    requires Closed(files) && Root in files.children
    ensures r.steps == steps || r.steps == MarkCompleted(steps)
    decreases |batch|
  {
    if batch == [] then Outcome(files, steps)
    else if batch[0].kind != CreateFile then RunPending(files, steps, batch[1..])
    else match Apply(files, batch[0].path, batch[0].code)
      case None => Outcome(files, steps)
      case Some(g) =>
        MarkCompletedIdempotent(steps);
        RunPending(g, MarkCompleted(steps), batch[1..])
  }

  /** A step other than `CreateFile` is passed over. */
  lemma RunPendingSkip(files: Forest, steps: seq<Step>, batch: seq<Step>)
    requires Closed(files) && Root in files.children
    requires batch != [] && batch[0].kind != CreateFile
    ensures RunPending(files, steps, batch) == RunPending(files, steps, batch[1..])
  {
  }

  /** A `CreateFile` step whose walk throws ends the run where it stands. */
  lemma RunPendingStop(files: Forest, steps: seq<Step>, batch: seq<Step>)
    requires Closed(files) && Root in files.children
    requires batch != [] && batch[0].kind == CreateFile
    requires Apply(files, batch[0].path, batch[0].code).None?
    ensures RunPending(files, steps, batch) == Outcome(files, steps)
  {
  }

  /** A `CreateFile` step that applies sets the forest and completes every step. */
  lemma RunPendingApply(files: Forest, steps: seq<Step>, batch: seq<Step>, g: Forest)
    requires Closed(files) && Root in files.children
    requires batch != [] && batch[0].kind == CreateFile
    requires Apply(files, batch[0].path, batch[0].code) == Some(g)
    ensures RunPending(files, steps, batch) == RunPending(g, MarkCompleted(steps), batch[1..])
  {
  }

  /** The forest stays valid with a sorted top-level list, whatever the batch. */
  lemma {:induction false} RunPendingValid(files: Forest, steps: seq<Step>, batch: seq<Step>)
    requires Valid(files) && Sorted(files.children[Root], files.items)
    ensures var r := RunPending(files, steps, batch);
      Valid(r.files) && Sorted(r.files.children[Root], r.files.items)
    decreases |batch|
  {
    if batch != [] {
      if batch[0].kind != CreateFile {
        RunPendingValid(files, steps, batch[1..]);
      } else {
        var a := Apply(files, batch[0].path, batch[0].code);
        ApplyValid(files, batch[0].path, batch[0].code);
        if a.Some? {
          RunPendingValid(a.value, MarkCompleted(steps), batch[1..]);
        }
      }
    }
  }

  /**
   * Statuses flip in bulk or not at all: afterwards the step list is either untouched or
   * entirely completed, and a batch without `CreateFile` steps changes nothing at all.
   */
  lemma {:induction false} RunPendingSteps(files: Forest, steps: seq<Step>, batch: seq<Step>)
    requires Closed(files) && Root in files.children
    ensures var r := RunPending(files, steps, batch);
      r.steps == steps || r.steps == MarkCompleted(steps)
    ensures (forall i :: 0 <= i < |batch| ==> batch[i].kind != CreateFile) ==>
              RunPending(files, steps, batch) == Outcome(files, steps)
    decreases |batch|
  {
    if batch != [] {
      if batch[0].kind != CreateFile {
        RunPendingSteps(files, steps, batch[1..]);
      } else {
        var a := Apply(files, batch[0].path, batch[0].code);
        if a.Some? {
          RunPendingSteps(a.value, MarkCompleted(steps), batch[1..]);
          MarkCompletedIdempotent(steps);
        }
      }
    }
  }

  /**
   * The first `CreateFile` step of the batch, at `k`, when it applies, completes every step,
   * whatever follows it.
   */
  lemma {:induction false} RunPendingCompletes(files: Forest, steps: seq<Step>, batch: seq<Step>, k: nat)
    requires Closed(files) && Root in files.children
    requires k < |batch| && batch[k].kind == CreateFile
    requires forall i :: 0 <= i < k ==> batch[i].kind != CreateFile
    requires Apply(files, batch[k].path, batch[k].code).Some?
    ensures RunPending(files, steps, batch).steps == MarkCompleted(steps)
    decreases k
  {
    if k == 0 {
      var g := Apply(files, batch[0].path, batch[0].code).value;
      RunPendingSteps(g, MarkCompleted(steps), batch[1..]);
      MarkCompletedIdempotent(steps);
    } else {
      assert batch[0].kind != CreateFile;
      RunPendingCompletes(files, steps, batch[1..], k - 1);
    }
  }

  /**
   * The segment walk of one `CreateFile` step over a copy of the forest: pushes the missing
   * folders and then the file, or overwrites the node already at the path.  Returns false, and
   * the forest it was given, where the editor throws: a folder segment that names an existing
   * file has no `children` to descend into.
   */
  method WalkSegments(start: Forest, segments: seq<string>, code: string) returns (ok: bool, files: Forest)
    requires Closed(start) && Root in start.children
    ensures ok <==> Walk(start, Root, segments, code).Some?
    ensures files == if ok then Walk(start, Root, segments, code).value else start
  {
    files := start;
    var parsedPath := segments;
    ghost var walked := Walk(files, Root, parsedPath, code);
    // The list being searched is the one owned by `currentFolder` at the head of each turn.
    var currentFolder := Root;
    while |parsedPath| > 0
      invariant |parsedPath| > 0 ==>
        && Closed(files) && currentFolder in files.children
        && Walk(files, currentFolder, parsedPath, code) == walked
        && (files != start ==> files.children[currentFolder] == [])
      invariant |parsedPath| == 0 ==> walked == Some(files)
      decreases |parsedPath|
    {
      var level := currentFolder;
      ghost var before, rest := files, parsedPath;
      currentFolder := currentFolder + "/" + parsedPath[0];
      var currentFolderName := parsedPath[0];
      parsedPath := parsedPath[1..];
      if |parsedPath| == 0 {
        // The final segment: the node found by path, whatever its kind, or a new file.
        if currentFolder in files.children[level] {
          files := files.(items := files.items[currentFolder := Overwrite(files.items[currentFolder], code)]);
        } else {
          var language := LanguageOf(currentFolder);
          files := Forest(
            files.items[currentFolder := File(currentFolderName, currentFolder, code, language)],
            files.children[level := files.children[level] + [currentFolder]]);
        }
        assert files == PutLeaf(before, level, currentFolder, currentFolderName, code);
      } else {
        if currentFolder !in files.children[level] {
          files := Forest(
            files.items[currentFolder := Folder(currentFolderName, currentFolder, None)],
            files.children[currentFolder := []][level := files.children[level] + [currentFolder]]);
        }
        assert files == Descend(before, level, currentFolderName);
        DescendClosed(before, level, currentFolderName);
        if files.items[currentFolder].File? {
          // `.children!` is undefined here, and the next lookup throws.
          assert files == before;
          return false, start;
        }
        assert Walk(before, level, rest, code) == Walk(files, currentFolder, parsedPath, code);
      }
    }
    ok := true;
  }

  /**
   * One `CreateFile` step over a copy of the forest: the segment walk followed by the re-sort
   * of the top-level list.  A valid forest stays valid, with its top-level list sorted.
   * Returns false, and the forest it was given, where the editor throws.
   */
  method MaterializeStep(originalFiles: Forest, path: Option<string>, code: string) returns (ok: bool, files: Forest)
    requires Valid(originalFiles) && Sorted(originalFiles.children[Root], originalFiles.items)
    ensures Valid(files) && Sorted(files.children[Root], files.items)
    ensures ok <==> Apply(originalFiles, path, code).Some?
    ensures files == if ok then Apply(originalFiles, path, code).value else originalFiles
  {
    ApplyValid(originalFiles, path, code);
    ok, files := WalkSegments(originalFiles, Segments(path), code);
    if ok {
      files := SortRoot(files);
    }
  }

  /** The state behind the hook: the file forest it owns and the step list it updates. */
  class CodeEditor {
    var files: Forest
    var steps: seq<Step>

    ghost predicate Valid()
      reads this
    {
      FileForest.Valid(files) && Sorted(files.children[Root], files.items)
    }

    constructor(steps0: seq<Step>)
      ensures Valid()
      ensures files == EmptyForest && steps == steps0
    {
      files := EmptyForest;
      steps := steps0;
    }

    /**
     * The hook's effect: the pending steps of the current list, in order; each `CreateFile`
     * step is materialized, and then the forest is set and every step is marked completed.
     * A step that throws ends the run, keeping what the earlier steps did.
     */
    method RunEffect()
      modifies this
      requires Valid()
      ensures Valid()
      ensures Outcome(files, steps) == RunPending(old(files), old(steps), PendingSteps(old(steps)))
    {
      var originalFiles := files;
      var pending := PendingSteps(steps);
      ghost var target := RunPending(files, steps, pending);
      var updateHappened := false;
      var i := 0;
      while i < |pending|
        invariant 0 <= i <= |pending|
        invariant files == originalFiles
        invariant FileForest.Valid(originalFiles) && Sorted(originalFiles.children[Root], originalFiles.items)
        invariant RunPending(originalFiles, steps, pending[i..]) == target
      {
        var step := pending[i];
        updateHappened := true;
        ghost var rest := pending[i..];
        assert rest[0] == step && rest[1..] == pending[i + 1..];
        if step.kind == CreateFile {
          var ok, walked := MaterializeStep(originalFiles, step.path, step.code);
          if !ok {
            RunPendingStop(originalFiles, steps, rest);
            return;
          }
          RunPendingApply(originalFiles, steps, rest, walked);
          originalFiles := walked;
          if updateHappened {
            files := originalFiles;
            steps := MarkCompleted(steps);
          }
        } else {
          RunPendingSkip(originalFiles, steps, rest);
        }
        i := i + 1;
      }
    }
  }
}
