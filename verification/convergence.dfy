/** How reconciliation and verification fit together: after ensure the fixture verifies,
    after cleanup it is reported missing, and the tampering the fixture exists to catch is
    reported with the expected code. */
module Convergence {
  import opened Wrappers
  import opened Filesystem
  import opened DummyErrors
  import opened Fixture
  import opened Verifier
  import opened Conformance
  import opened Reconciler

  /** Ensure followed by verify yields no error. */
  lemma EnsureThenVerify(d: Dummy, fs: Fs)
    requires d.nChildren == RootChildCount && Ensure(d, fs).Success?
    ensures Verify(d, Ensure(d, fs).value) == None
    ensures VerifyFile(d, Ensure(d, fs).value) == None
    ensures VerifyFolder(d, Ensure(d, fs).value) == None
  {
    var fs' := Ensure(d, fs).value;
    assert Reachable(d, fs');
    LayoutPasses(d, fs');
    VerifyPassesIffAllPass(d, fs');
  }

  /** For a valid fixture with distinct names, ensure succeeds whatever the root held,
      as long as its parent directory exists and the adapter does not fail on the
      fixture's paths; verification then passes. */
  lemma EnsureConverges(d: Dummy, fs: Fs)
    requires Valid(d) && d.file != d.folder
    requires IsDirAt(fs, []) && !Faulty(fs, RootPath(d)) && !Faulty(fs, FilePath(d)) && !Faulty(fs, FolderPath(d))
    ensures Ensure(d, fs).Success? && Verify(d, Ensure(d, fs).value) == None
  {
    EnsureThenVerify(d, fs);
  }

  /** Cleanup followed by verify reports the missing root, or passes the adapter's ENOTDIR
      through when the root's parent is not a directory; the per-entity checks report
      their own entity missing unless the adapter fails on that entity's path. */
  lemma CleanupThenVerify(d: Dummy, fs: Fs)
    requires Cleanup(d, fs).Success?
    ensures !Blocked(fs, RootPath(d)) ==>
      Verify(d, Cleanup(d, fs).value) ==
      Some(Diagnosed(NewError(Some(Enoent), DoesNotExist(RootDirectory), Some(RawError(NotFound, RootPath(d))))))
    ensures Blocked(fs, RootPath(d)) ==>
      Verify(d, Cleanup(d, fs).value) == Some(Raw(RawError(Filesystem.NotADirectory, RootPath(d))))
    ensures !Faulty(fs, FilePath(d)) ==> Reports(VerifyFile(d, Cleanup(d, fs).value), Enoent)
    ensures !Faulty(fs, FolderPath(d)) ==> Reports(VerifyFolder(d, Cleanup(d, fs).value), Enoent)
  {
  }

  /** Two states that agree on faults, on everything under `p` and on everything
      outside it are the same state. */
  lemma SameSplitSameState(a: Fs, b: Fs, p: Path)
    requires a.faults == b.faults && Subtree(a, p) == Subtree(b, p) && OutsideUnchanged(a, b, p)
    ensures a == b
  {
  }

  /** Ensuring an ensured fixture changes nothing. */
  lemma EnsureIdempotent(d: Dummy, fs: Fs)
    requires Ensure(d, fs).Success?
    ensures Ensure(d, Ensure(d, fs).value) == Ensure(d, fs)
  {
    var fs' := Ensure(d, fs).value;
    var fs'' := Ensure(d, fs').value;
    assert IsDirAt(fs', []) by {
      assert !(RootPath(d) <= []);
    }
    SameSplitSameState(fs'', fs', RootPath(d));
  }

  /** Cleaning up a cleaned-up fixture changes nothing. */
  lemma CleanupIdempotent(d: Dummy, fs: Fs)
    requires Cleanup(d, fs).Success?
    ensures Cleanup(d, Cleanup(d, fs).value) == Cleanup(d, fs)
  {
    var fs' := Cleanup(d, fs).value;
    var fs'' := Cleanup(d, fs').value;
    SameSplitSameState(fs'', fs', RootPath(d));
  }

  /** Content equality is exact: any other text written into the ensured file is
      reported as a mismatch carrying both texts. */
  lemma RewrittenContentDetected(d: Dummy, fs: Fs, text: string)
    requires d.nChildren == RootChildCount && Ensure(d, fs).Success?
    requires text != d.content
    requires WriteFile(Ensure(d, fs).value, FilePath(d), text).Success?
    ensures VerifyFile(d, WriteFile(Ensure(d, fs).value, FilePath(d), text).value) ==
      Some(Diagnosed(NewError(Some(NomatchContent), ContentMismatch(text, DummyFile, d.content), None)))
  {
  }

  /** Removing the ensured file makes the file check report it missing. */
  lemma RemovedFileDetected(d: Dummy, fs: Fs)
    requires Ensure(d, fs).Success? && Remove(Ensure(d, fs).value, FilePath(d)).Success?
    ensures Reports(VerifyFile(d, Remove(Ensure(d, fs).value, FilePath(d)).value), Enoent)
  {
  }

  /** A regular file in place of the folder fails the folder's type check. */
  lemma FolderReplacedByFileDetected(d: Dummy, fs: Fs, text: string)
    requires Ensure(d, fs).Success? && Remove(Ensure(d, fs).value, FolderPath(d)).Success?
    requires WriteFile(Remove(Ensure(d, fs).value, FolderPath(d)).value, FolderPath(d), text).Success?
    ensures Reports(VerifyFolder(d, WriteFile(Remove(Ensure(d, fs).value, FolderPath(d)).value, FolderPath(d), text).value), StatEnotdir)
  {
  }

  /** A directory in place of the file fails the file's type check. */
  lemma FileReplacedByDirDetected(d: Dummy, fs: Fs)
    requires Ensure(d, fs).Success? && Remove(Ensure(d, fs).value, FilePath(d)).Success?
    requires Mkdir(Remove(Ensure(d, fs).value, FilePath(d)).value, FilePath(d)).Success?
    ensures Reports(VerifyFile(d, Mkdir(Remove(Ensure(d, fs).value, FilePath(d)).value, FilePath(d)).value), StatEnotfile)
  {
  }

  /** One more entry in the ensured root is reported as unknown. */
  lemma ExtraEntryAfterEnsureDetected(d: Dummy, fs: Fs, extra: Name, text: string)
    requires d.nChildren == RootChildCount && Ensure(d, fs).Success?
    requires extra != d.file && extra != d.folder
    requires WriteFile(Ensure(d, fs).value, RootPath(d) + [extra], text).Success?
    ensures Reports(Verify(d, WriteFile(Ensure(d, fs).value, RootPath(d) + [extra], text).value), UnknownDetected)
  {
    var fs' := Ensure(d, fs).value;
    var fs'' := WriteFile(fs', RootPath(d) + [extra], text).value;
    var r := RootPath(d);
    assert r <= r && r <= FilePath(d) && r <= FolderPath(d);
    assert r in Layout(d) && FilePath(d) in Layout(d) && FolderPath(d) in Layout(d);
    assert (r + [extra])[1] == extra;
    ExtraEntryDetected(d, fs'', extra);
  }
}
