/** The destructive side of the fixture: removing it and forcing the declared layout onto
    the filesystem.  Failures are the adapter's own errors, not taxonomy errors. */
module Reconciler {
  import opened Wrappers
  import opened Filesystem
  import opened Fixture

  /** Removes the root and everything under it; an absent root is no error. */
  function Cleanup(d: Dummy, fs: Fs): (r: Result<Fs, RawError>)
    ensures r.Success? <==> !Faulty(fs, RootPath(d))
    ensures r.Failure? ==> r.error == FaultAt(fs, RootPath(d))
    ensures r.Success? ==> Subtree(r.value, RootPath(d)) == map[]
    ensures r.Success? ==> OutsideUnchanged(fs, r.value, RootPath(d)) && r.value.faults == fs.faults
  {
    Remove(fs, RootPath(d))
  }

  function CreateRoot(d: Dummy, fs: Fs): Result<Fs, RawError> {
    Mkdir(fs, RootPath(d))
  }

  function CreateFile(d: Dummy, fs: Fs): Result<Fs, RawError> {
    WriteFile(fs, FilePath(d), d.content)
  }

  function CreateFolder(d: Dummy, fs: Fs): Result<Fs, RawError> {
    Mkdir(fs, FolderPath(d))
  }

  /** Cleanup, then the root, the file and the folder, stopping at the first failure. */
  function Ensure(d: Dummy, fs: Fs): (r: Result<Fs, RawError>)
    ensures r.Success? <==>
      !Faulty(fs, RootPath(d)) && !Faulty(fs, FilePath(d)) && !Faulty(fs, FolderPath(d)) &&
      IsDirAt(fs, []) && d.file != d.folder
    ensures r.Success? ==> Subtree(r.value, RootPath(d)) == Layout(d)
    ensures r.Success? ==> OutsideUnchanged(fs, r.value, RootPath(d)) && r.value.faults == fs.faults
    ensures Faulty(fs, RootPath(d)) ==> r == Failure(FaultAt(fs, RootPath(d)))
    ensures !Faulty(fs, RootPath(d)) && !IsDirAt(fs, []) ==>
      r == Failure(RawError(if [] in fs.nodes then NotADirectory else NotFound, RootPath(d)))
    ensures !Faulty(fs, RootPath(d)) && IsDirAt(fs, []) && Faulty(fs, FilePath(d)) ==>
      r == Failure(FaultAt(fs, FilePath(d)))
    ensures !Faulty(fs, RootPath(d)) && IsDirAt(fs, []) && !Faulty(fs, FilePath(d)) && d.file == d.folder ==>
      r == Failure(RawError(AlreadyExists, FolderPath(d)))
    ensures (!Faulty(fs, RootPath(d)) && IsDirAt(fs, []) && !Faulty(fs, FilePath(d)) && d.file != d.folder &&
      Faulty(fs, FolderPath(d))) ==> r == Failure(FaultAt(fs, FolderPath(d)))
  {
    var fs1 :- Cleanup(d, fs);
    assert Parent(RootPath(d)) == [] && !(RootPath(d) <= []);
    var fs2 :- CreateRoot(d, fs1);
    assert Parent(FilePath(d)) == RootPath(d) && Parent(FolderPath(d)) == RootPath(d);
    assert FilePath(d) !in fs1.nodes && FolderPath(d) !in fs1.nodes by {
      assert RootPath(d) <= FilePath(d) && RootPath(d) <= FolderPath(d);
    }
    var fs3 :- CreateFile(d, fs2);
    var fs4 :- CreateFolder(d, fs3);
    EnsureBuildsLayout(d, fs, fs1, fs4);
    Success(fs4)
  }

  /** The three creations on an emptied root leave exactly the declared layout there. */
  lemma EnsureBuildsLayout(d: Dummy, fs: Fs, fs1: Fs, fs4: Fs)
    requires d.file != d.folder
    requires Subtree(fs1, RootPath(d)) == map[]
    requires fs4.nodes.Keys == fs1.nodes.Keys + {RootPath(d), FilePath(d), FolderPath(d)}
    requires fs4.nodes[RootPath(d)] == Dir && fs4.nodes[FilePath(d)] == File(d.content)
    requires fs4.nodes[FolderPath(d)] == Dir
    requires OutsideUnchanged(fs, fs1, RootPath(d))
    requires forall q :: q in fs1.nodes ==> fs4.nodes[q] == fs1.nodes[q]
    ensures Subtree(fs4, RootPath(d)) == Layout(d)
    ensures OutsideUnchanged(fs, fs4, RootPath(d))
  {
  }

  /** Cleanup leaves every remaining entry inside an existing directory. */
  lemma CleanupPreservesWellFormed(d: Dummy, fs: Fs)
    requires WellFormed(fs) && Cleanup(d, fs).Success?
    ensures WellFormed(Cleanup(d, fs).value)
  {
    RemovePreservesWellFormed(fs, RootPath(d));
  }

  /** Ensure leaves every entry inside an existing directory, so the results about
      well-formed states apply to the state it builds. */
  lemma EnsurePreservesWellFormed(d: Dummy, fs: Fs)
    requires WellFormed(fs) && Ensure(d, fs).Success?
    ensures WellFormed(Ensure(d, fs).value)
  {
    var fs1 := Cleanup(d, fs).value;
    CleanupPreservesWellFormed(d, fs);
    var fs2 := CreateRoot(d, fs1).value;
    MkdirPreservesWellFormed(fs1, RootPath(d));
    var fs3 := CreateFile(d, fs2).value;
    WriteFilePreservesWellFormed(fs2, FilePath(d), d.content);
    MkdirPreservesWellFormed(fs3, FolderPath(d));
  }
}
