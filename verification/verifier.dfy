/** The read-only verification of a fixture against a filesystem state: six checks, each
    classifying one adapter outcome into the closed taxonomy, run fail-fast in a fixed
    order. */
module Verifier {
  import opened Wrappers
  import opened Filesystem
  import opened DummyErrors
  import opened Fixture

  /** The outcome of a check: `None` when it passes, otherwise the one failure. */
  type Verdict = Option<Failure>

  /** The check failed with a classified error carrying `c`. */
  predicate Reports(v: Verdict, c: Code) {
    v.Some? && v.value.Diagnosed? && v.value.error.code == c
  }

  /** The check failed with an adapter error passed through unchanged. */
  predicate PassedThrough(v: Verdict) {
    v.Some? && v.value.Raw?
  }

  /** `p` can be listed: it holds a directory and is not faulty. */
  predicate Listable(fs: Fs, p: Path) {
    !Faulty(fs, p) && IsDirAt(fs, p)
  }

  /** The classification every check shares: "not found" becomes ENOENT for `entity`,
      wrapping the adapter error; any other adapter error passes through as it is; a
      successful outcome is judged by the check's own validator. */
  function HandleVerifyFs<T>(entity: Entity, outcome: Result<T, RawError>, validator: T -> Option<DummyError>): (v: Verdict)
    ensures outcome.Failure? && outcome.error.code == NotFound ==>
      v == Some(Diagnosed(NewError(Some(Enoent), DoesNotExist(entity), Some(outcome.error))))
    ensures outcome.Failure? && outcome.error.code != NotFound ==> v == Some(Raw(outcome.error))
    ensures outcome.Success? ==> (v.None? <==> validator(outcome.value).None?)
    ensures outcome.Success? && v.Some? ==> v.value == Diagnosed(validator(outcome.value).value)
  {
    match outcome
    case Failure(err) =>
      if err.code != NotFound then Some(Raw(err))
      else Some(Diagnosed(NewError(Some(Enoent), DoesNotExist(entity), Some(err))))
    case Success(value) =>
      match validator(value)
      case None => None
      case Some(e) => Some(Diagnosed(e))
  }

  /** The root must be a directory itself; a link to one does not pass. */
  function VerifyRootStat(d: Dummy, fs: Fs): (v: Verdict)
    ensures v.None? <==> Listable(fs, RootPath(d))
    ensures Reports(v, Enoent) <==> Absent(fs, RootPath(d))
    ensures Reports(v, StatEnotdir) <==>
      !Faulty(fs, RootPath(d)) && RootPath(d) in fs.nodes && !fs.nodes[RootPath(d)].Dir?
    ensures PassedThrough(v) <==> Faulty(fs, RootPath(d)) || (RootPath(d) !in fs.nodes && Blocked(fs, RootPath(d)))
    ensures Faulty(fs, RootPath(d)) ==> v == Some(Raw(FaultAt(fs, RootPath(d))))
    ensures !Faulty(fs, RootPath(d)) && RootPath(d) !in fs.nodes && Blocked(fs, RootPath(d)) ==>
      v == Some(Raw(RawError(Filesystem.NotADirectory, RootPath(d))))
  {
    var p := RootPath(d);
    HandleVerifyFs(RootDirectory, Lstat(fs, p), (stats: Stats) =>
      if stats.IsDirectory() then None
      else Some(NewError(Some(StatEnotdir), NotADirectory(RootDirectory, p), None)))
  }

  /** The root must list the folder, then the file, and nothing beyond the expected count. */
  function VerifyRootChildren(d: Dummy, fs: Fs): (v: Verdict)
    ensures Reports(v, Enoent) <==> Absent(fs, RootPath(d))
    ensures PassedThrough(v) <==> !Absent(fs, RootPath(d)) && !Listable(fs, RootPath(d))
    ensures v.None? <==>
      Listable(fs, RootPath(d)) && FolderPath(d) in fs.nodes && FilePath(d) in fs.nodes &&
      |Children(fs, RootPath(d))| <= d.nChildren
    ensures Reports(v, MandatoryMissing) <==>
      Listable(fs, RootPath(d)) && (FolderPath(d) !in fs.nodes || FilePath(d) !in fs.nodes)
    ensures Reports(v, UnknownDetected) <==>
      Listable(fs, RootPath(d)) && FolderPath(d) in fs.nodes && FilePath(d) in fs.nodes &&
      |Children(fs, RootPath(d))| > d.nChildren
    ensures Listable(fs, RootPath(d)) && FolderPath(d) !in fs.nodes ==>
      v == Some(Diagnosed(NewError(Some(MandatoryMissing), NotFoundIn(DummyFolder, d.folder, RootPath(d)), None)))
    ensures Reports(v, UnknownDetected) ==>
      v.value.error.detail == UnknownAmong(RootPath(d), Children(fs, RootPath(d)))
  {
    var p := RootPath(d);
    HandleVerifyFs(RootDirectory, Readdir(fs, p), (files: set<Name>) =>
      if d.folder !in files then
        Some(NewError(Some(MandatoryMissing), NotFoundIn(DummyFolder, d.folder, p), None))
      else if d.file !in files then
        Some(NewError(Some(MandatoryMissing), NotFoundIn(DummyFile, d.file, p), None))
      else if |files| > d.nChildren then
        Some(NewError(Some(UnknownDetected), UnknownAmong(p, files), None))
      else None)
  }

  /** The folder must be a directory itself; a link to one does not pass. */
  function VerifyFolderStat(d: Dummy, fs: Fs): (v: Verdict)
    ensures v.None? <==> Listable(fs, FolderPath(d))
    ensures Reports(v, Enoent) <==> Absent(fs, FolderPath(d))
    ensures Reports(v, StatEnotdir) <==>
      !Faulty(fs, FolderPath(d)) && FolderPath(d) in fs.nodes && !fs.nodes[FolderPath(d)].Dir?
    ensures PassedThrough(v) <==> Faulty(fs, FolderPath(d)) || (FolderPath(d) !in fs.nodes && Blocked(fs, FolderPath(d)))
  {
    var p := FolderPath(d);
    HandleVerifyFs(DummyFolder, Lstat(fs, p), (stats: Stats) =>
      if stats.IsDirectory() then None
      else Some(NewError(Some(StatEnotdir), NotADirectory(DummyFolder, p), None)))
  }

  /** The folder must be empty; what lies deeper is never looked at. */
  function VerifyFolderChildren(d: Dummy, fs: Fs): (v: Verdict)
    ensures v.None? <==> Listable(fs, FolderPath(d)) && Children(fs, FolderPath(d)) == {}
    ensures Reports(v, UnknownDetected) <==>
      Listable(fs, FolderPath(d)) && Children(fs, FolderPath(d)) != {}
    ensures Reports(v, Enoent) <==> Absent(fs, FolderPath(d))
    ensures PassedThrough(v) <==> !Absent(fs, FolderPath(d)) && !Listable(fs, FolderPath(d))
  {
    var p := FolderPath(d);
    HandleVerifyFs(DummyFolder, Readdir(fs, p), (files: set<Name>) =>
      if |files| != 0 then Some(NewError(Some(UnknownDetected), NotEmpty(DummyFolder, p), None))
      else None)
  }

  /** The file must be a regular file itself; a link to one does not pass. */
  function VerifyFileStat(d: Dummy, fs: Fs): (v: Verdict)
    ensures v.None? <==> !Faulty(fs, FilePath(d)) && FilePath(d) in fs.nodes && fs.nodes[FilePath(d)].File?
    ensures Reports(v, Enoent) <==> Absent(fs, FilePath(d))
    ensures Reports(v, StatEnotfile) <==>
      !Faulty(fs, FilePath(d)) && FilePath(d) in fs.nodes && !fs.nodes[FilePath(d)].File?
    ensures PassedThrough(v) <==> Faulty(fs, FilePath(d)) || (FilePath(d) !in fs.nodes && Blocked(fs, FilePath(d)))
  {
    var p := FilePath(d);
    HandleVerifyFs(DummyFile, Lstat(fs, p), (stats: Stats) =>
      if stats.IsFile() then None
      else Some(NewError(Some(StatEnotfile), NotAFile(DummyFile, p), None)))
  }

  /** The file's text must equal the expected content exactly. */
  function VerifyFileContent(d: Dummy, fs: Fs): (v: Verdict)
    ensures v.None? <==> !Faulty(fs, FilePath(d)) && FilePath(d) in fs.nodes && fs.nodes[FilePath(d)] == File(d.content)
    ensures Reports(v, NomatchContent) <==>
      !Faulty(fs, FilePath(d)) && FilePath(d) in fs.nodes && fs.nodes[FilePath(d)].File? &&
      fs.nodes[FilePath(d)].content != d.content
    ensures Reports(v, NomatchContent) ==>
      v.value.error.detail == ContentMismatch(fs.nodes[FilePath(d)].content, DummyFile, d.content)
    ensures Reports(v, Enoent) <==> Absent(fs, FilePath(d))
    ensures PassedThrough(v) <==>
      Faulty(fs, FilePath(d)) || (FilePath(d) in fs.nodes && !fs.nodes[FilePath(d)].File?) ||
      (FilePath(d) !in fs.nodes && Blocked(fs, FilePath(d)))
  {
    HandleVerifyFs(DummyFile, ReadFile(fs, FilePath(d)), (data: string) =>
      if data == d.content then None
      else Some(NewError(Some(NomatchContent), ContentMismatch(data, DummyFile, d.content), None)))
  }

  /** The six checks, by name. */
  datatype Step = RootStat | RootChildren | FolderStat | FolderChildren | FileStat | FileContent

  function RunStep(step: Step, d: Dummy, fs: Fs): Verdict {
    match step
    case RootStat => VerifyRootStat(d, fs)
    case RootChildren => VerifyRootChildren(d, fs)
    case FolderStat => VerifyFolderStat(d, fs)
    case FolderChildren => VerifyFolderChildren(d, fs)
    case FileStat => VerifyFileStat(d, fs)
    case FileContent => VerifyFileContent(d, fs)
  }

  /** The first `k` checks all pass. */
  predicate PassBefore(steps: seq<Step>, k: nat, d: Dummy, fs: Fs)
    requires k <= |steps|
  {
    forall j :: 0 <= j < k ==> RunStep(steps[j], d, fs).None?
  }

  /** Runs the checks one after another and stops at the first failure, which becomes the
      verdict of the whole sequence. */
  function Series(steps: seq<Step>, d: Dummy, fs: Fs): (v: Verdict)
    ensures v.None? <==> PassBefore(steps, |steps|, d, fs)
    ensures v.Some? ==> exists i :: 0 <= i < |steps| && v == RunStep(steps[i], d, fs) && PassBefore(steps, i, d, fs)
    decreases |steps|
  {
    if |steps| == 0 then None
    else
      var first := RunStep(steps[0], d, fs);
      if first.Some? then
        assert PassBefore(steps, 0, d, fs);
        first
      else
        var rest := Series(steps[1..], d, fs);
        assert rest.Some? ==> exists i :: 0 <= i < |steps| && rest == RunStep(steps[i], d, fs) && PassBefore(steps, i, d, fs) by {
          if rest.Some? {
            var k :| 0 <= k < |steps[1..]| && rest == RunStep(steps[1..][k], d, fs) && PassBefore(steps[1..], k, d, fs);
            assert rest == RunStep(steps[k + 1], d, fs);
            forall j | 0 <= j < k + 1
              ensures RunStep(steps[j], d, fs).None?
            {
              if j > 0 {
                assert steps[j] == steps[1..][j - 1];
              }
            }
            assert PassBefore(steps, k + 1, d, fs);
          }
        }
        assert rest.None? <==> PassBefore(steps, |steps|, d, fs) by {
          if rest.None? {
            forall i | 0 <= i < |steps|
              ensures RunStep(steps[i], d, fs).None?
            {
              if i > 0 {
                assert steps[i] == steps[1..][i - 1];
              }
            }
          } else {
            assert !PassBefore(steps[1..], |steps| - 1, d, fs);
            var i :| 0 <= i < |steps| - 1 && RunStep(steps[1..][i], d, fs).Some?;
            assert steps[1..][i] == steps[i + 1];
          }
        }
        rest
  }

  /** Fail-fast composition: once the first part fails nothing after it is run, and
      otherwise the verdict is the second part's. */
  lemma {:induction false} SeriesConcat(a: seq<Step>, b: seq<Step>, d: Dummy, fs: Fs)
    ensures Series(a + b, d, fs) == (if Series(a, d, fs).Some? then Series(a, d, fs) else Series(b, d, fs))
    decreases |a|
  {
    if |a| > 0 {
      assert (a + b)[0] == a[0];
      assert (a + b)[1..] == a[1..] + b;
      SeriesConcat(a[1..], b, d, fs);
    } else {
      assert a + b == b;
    }
  }

  const RootSteps: seq<Step> := [RootStat, RootChildren]
  const FolderSteps: seq<Step> := [FolderStat, FolderChildren]
  const FileSteps: seq<Step> := [FileStat, FileContent]

  /** The whole fixture: root, then folder, then file. */
  function Verify(d: Dummy, fs: Fs): Verdict
  {
    Series(RootSteps + FolderSteps + FileSteps, d, fs)
  }

  /** The file alone, without looking at the root first. */
  function VerifyFile(d: Dummy, fs: Fs): (v: Verdict)
    ensures v.None? <==> !Faulty(fs, FilePath(d)) && FilePath(d) in fs.nodes && fs.nodes[FilePath(d)] == File(d.content)
    ensures Reports(v, Enoent) <==> Absent(fs, FilePath(d))
    ensures Reports(v, StatEnotfile) <==>
      !Faulty(fs, FilePath(d)) && FilePath(d) in fs.nodes && !fs.nodes[FilePath(d)].File?
    ensures Reports(v, NomatchContent) <==>
      !Faulty(fs, FilePath(d)) && FilePath(d) in fs.nodes && fs.nodes[FilePath(d)].File? &&
      fs.nodes[FilePath(d)].content != d.content
    ensures PassedThrough(v) <==> Faulty(fs, FilePath(d)) || (FilePath(d) !in fs.nodes && Blocked(fs, FilePath(d)))
    ensures !Faulty(fs, FilePath(d)) && FilePath(d) !in fs.nodes && Blocked(fs, FilePath(d)) ==>
      v == Some(Raw(RawError(Filesystem.NotADirectory, FilePath(d))))
    ensures v == if VerifyFileStat(d, fs).Some? then VerifyFileStat(d, fs) else VerifyFileContent(d, fs)
  {
    Series(FileSteps, d, fs)
  }

  /** The folder alone, without looking at the root first. */
  function VerifyFolder(d: Dummy, fs: Fs): (v: Verdict)
    ensures v.None? <==> Listable(fs, FolderPath(d)) && Children(fs, FolderPath(d)) == {}
    ensures Reports(v, Enoent) <==> Absent(fs, FolderPath(d))
    ensures Reports(v, StatEnotdir) <==>
      !Faulty(fs, FolderPath(d)) && FolderPath(d) in fs.nodes && !fs.nodes[FolderPath(d)].Dir?
    ensures Reports(v, UnknownDetected) <==>
      Listable(fs, FolderPath(d)) && Children(fs, FolderPath(d)) != {}
    ensures PassedThrough(v) <==> Faulty(fs, FolderPath(d)) || (FolderPath(d) !in fs.nodes && Blocked(fs, FolderPath(d)))
    ensures !Faulty(fs, FolderPath(d)) && FolderPath(d) !in fs.nodes && Blocked(fs, FolderPath(d)) ==>
      v == Some(Raw(RawError(Filesystem.NotADirectory, FolderPath(d))))
    ensures v == if VerifyFolderStat(d, fs).Some? then VerifyFolderStat(d, fs) else VerifyFolderChildren(d, fs)
  {
    Series(FolderSteps, d, fs)
  }

  /** The order of the whole verification: root stat, root children, then the folder
      pair, then the file pair; the first failure is the verdict. */
  lemma VerifyOrder(d: Dummy, fs: Fs)
    ensures Verify(d, fs) ==
      if VerifyRootStat(d, fs).Some? then VerifyRootStat(d, fs)
      else if VerifyRootChildren(d, fs).Some? then VerifyRootChildren(d, fs)
      else if VerifyFolder(d, fs).Some? then VerifyFolder(d, fs)
      else VerifyFile(d, fs)
  {
    SeriesConcat(RootSteps + FolderSteps, FileSteps, d, fs);
    SeriesConcat(RootSteps, FolderSteps, d, fs);
    assert Series(RootSteps, d, fs) ==
      if VerifyRootStat(d, fs).Some? then VerifyRootStat(d, fs) else VerifyRootChildren(d, fs);
  }

  /** The whole verification passes exactly when every one of its checks does. */
  lemma VerifyPassesIffAllPass(d: Dummy, fs: Fs)
    ensures Verify(d, fs).None? <==>
      VerifyRootStat(d, fs).None? && VerifyRootChildren(d, fs).None? &&
      VerifyFolder(d, fs).None? && VerifyFile(d, fs).None?
  {
    VerifyOrder(d, fs);
  }

  /** A failing root check ends the verification with its own verdict. */
  lemma VerifyStopsAtRoot(d: Dummy, fs: Fs)
    ensures VerifyRootStat(d, fs).Some? ==> Verify(d, fs) == VerifyRootStat(d, fs)
    ensures VerifyRootStat(d, fs).None? && VerifyRootChildren(d, fs).Some? ==>
      Verify(d, fs) == VerifyRootChildren(d, fs)
  {
    VerifyOrder(d, fs);
  }
}
